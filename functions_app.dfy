/**
 * backend/functions/functions.js: one app registering the sign-in, the
 * photo listing and detail, the like toggle, the text-only comment post
 * and the validated blob upload. Each handler runs its statements against
 * the database (or the blob container) in the order the source issues them.
 */
module FunctionsApp {
  import opened Wrappers
  import opened JsText
  import opened Ranking
  import opened Store
  import opened Http
  import opened Blobs
  import opened UserEndpoints
  import opened PhotoEndpoints
  import opened InteractionEndpoints
  import opened StorageEndpoints

  /** googleAuth: verify the token, look the GoogleId up, insert a consumer if it is new. */
  method GoogleAuth(db: Db, token: Option<string>, verify: string -> Option<Identity>, now: nat) returns (r: Response)
    requires db.Valid()
    modifies db
    ensures db.Valid()
    ensures Outcome(db.T(), r) == SignIn(old(db.T()), token, verify, now)
  {
    if token.None? || verify(token.value).None? {
      return Fail(401, "Authentication failed");
    }
    var g := verify(token.value).value;
    var existing := db.FindByGoogleId(g.googleId);
    if existing.None? {
      var u := NewConsumer(g, now);
      var id := db.InsertUser(u);
      r := Response(200, WithUser(ViewOf(id, u), "Authentication successful"));
    } else {
      var id := existing.value;
      r := Response(200, WithUser(ViewOf(id, db.users[id]), "Authentication successful"));
    }
  }

  /** getPhotos: the page SELECT, then the COUNT. */
  method GetPhotos(db: Db, search: Option<string>, pageParam: Option<int>, limitParam: Option<int>) returns (r: Response)
    ensures ListingResponse(db.T(), search, pageParam, limitParam, r)
  {
    var term := OrElse(search, "");
    var page := pageParam.GetOr(1);
    var limit := limitParam.GetOr(20);
    var offset := (page - 1) * limit;
    if FetchRejected(offset, limit) {
      return Fail(500, "Failed to fetch photos");
    }
    var ranks := ListedRanks(db.T(), term);
    var ordered := SortDescending(ranks);
    WindowOrdered(ordered, ranks, offset, limit);
    var photos := ListingRows(db.T(), Window(ordered, offset, limit));
    var total := PublishedCount(db.T(), term);
    r := Response(200, PhotoPage(photos, page, limit, total, CeilDiv(total, limit)));
  }

  /** getPhoto: count the view, then SELECT the published photo and its comments. */
  method GetPhoto(db: Db, photoId: PhotoId) returns (r: Response)
    requires db.Valid()
    modifies db
    ensures db.Valid()
    ensures db.T() == old(db.T()).AddView(photoId)
    ensures DetailResponse(db.T(), photoId, false, r)
  {
    db.AddView(photoId);
    if !Visible(db.T(), photoId) {
      return Fail(404, "Photo not found");
    }
    var photo := DetailRow(db.T(), photoId);
    var ordered := SortDescending(CommentRanks(db.T(), photoId));
    var comments := CommentRows(db.T(), ordered, false);
    r := Response(200, PhotoDetail(photo, comments));
  }

  /** likePhoto: SELECT the like, then DELETE and decrement, or INSERT and increment. */
  method LikePhoto(db: Db, photoId: PhotoId, userId: UserId) returns (r: Response)
    requires db.Valid()
    modifies db
    ensures db.Valid()
    ensures Outcome(db.T(), r) == ToggleLike(old(db.T()), photoId, userId)
  {
    var k := LikeKey(photoId, userId);
    if k in db.likes {
      db.DeleteLike(k);
      db.AddLikes(photoId, -1);
      r := Response(200, Toggled(false, "Photo unliked"));
    } else {
      db.InsertLike(k);
      db.AddLikes(photoId, 1);
      r := Response(200, Toggled(true, "Photo liked"));
    }
  }

  /** addComment: refuse a blank text, otherwise insert it as sent. */
  method AddComment(db: Db, photoId: PhotoId, userId: UserId, text: Option<string>, now: nat) returns (r: Response)
    requires db.Valid()
    modifies db
    ensures db.Valid()
    ensures Outcome(db.T(), r) == PostCommentAsSent(old(db.T()), photoId, userId, text, now)
  {
    if text.None? || Trim(text.value) == "" {
      return Fail(400, "Comment text is required");
    }
    var id := db.InsertComment(Comment(photoId, userId, text.value, now));
    r := Response(201, CommentAdded(id, "Comment added successfully"));
  }

  /** uploadToStorage: content type, parts, type and size checks, then the upload. */
  method UploadToStorage(store: Container, contentType: Option<string>, parts: seq<Part>, now: nat) returns (r: Response)
    modifies store
    ensures StorageOutcome(store.blobs, r) == UploadValidated(old(store.blobs), store.url, contentType, parts, now)
  {
    if contentType.None? || !Includes(contentType.value, "multipart/form-data") {
      return Fail(400, "Content-Type must be multipart/form-data");
    }
    if |parts| == 0 {
      return Fail(400, "No file uploaded");
    }
    var filePart := parts[0];
    var fileName := StampedName(now, filePart.filename);
    var mimeType := filePart.mimeType;
    if !AllowedType(mimeType) {
      return Fail(400, "Invalid file type. Only JPEG, PNG, and WebP are allowed.");
    }
    if filePart.size > MaxUploadSize {
      return Fail(400, "File size exceeds 10MB limit");
    }
    var imageUrl := store.Upload(fileName, Blob(filePart.size, mimeType.value));
    r := Response(200, FileStored(imageUrl, fileName, Some("File uploaded successfully")));
  }
}
