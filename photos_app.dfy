/**
 * backend/functions/photos.js: the photo listing and detail, the creator
 * upload, the owner's edit and the owner-or-admin deletion.
 */
module PhotosApp {
  import opened Wrappers
  import opened JsText
  import opened Ranking
  import opened Store
  import opened Http
  import opened PhotoEndpoints

  /** getPhotos: the page SELECT, then the COUNT. */
  method GetPhotos(db: Db, search: Option<string>, pageParam: Option<int>, limitParam: Option<int>) returns (r: Response)
    ensures ListingResponse(db.T(), search, pageParam, limitParam, r)
  {
    var searchTerm := OrElse(search, "");
    var page := pageParam.GetOr(1);
    var limit := limitParam.GetOr(20);
    var offset := (page - 1) * limit;
    if FetchRejected(offset, limit) {
      return Fail(500, "Failed to fetch photos");
    }
    var ranks := ListedRanks(db.T(), searchTerm);
    var ordered := SortDescending(ranks);
    WindowOrdered(ordered, ranks, offset, limit);
    var photos := ListingRows(db.T(), Window(ordered, offset, limit));
    var total := PublishedCount(db.T(), searchTerm);
    r := Response(200, PhotoPage(photos, page, limit, total, CeilDiv(total, limit)));
  }

  /** getPhoto: count the view, then SELECT the published photo and its comments. */
  method GetPhoto(db: Db, photoId: PhotoId) returns (r: Response)
    requires db.Valid()
    modifies db
    ensures db.Valid()
    ensures db.T() == old(db.T()).AddView(photoId)
    ensures DetailResponse(db.T(), photoId, false, r)
  {
    db.AddView(photoId);
    if !Visible(db.T(), photoId) {
      return Fail(404, "Photo not found");
    }
    var photo := DetailRow(db.T(), photoId);
    var ordered := SortDescending(CommentRanks(db.T(), photoId));
    var comments := CommentRows(db.T(), ordered, false);
    r := Response(200, PhotoDetail(photo, comments));
  }

  /** uploadPhoto: SELECT the caller's role; only a creator's photo is inserted. */
  method UploadPhoto(db: Db, userId: Option<nat>, fields: PhotoFields, now: nat) returns (r: Response)
    requires db.Valid()
    modifies db
    ensures db.Valid()
    ensures Outcome(db.T(), r) == PhotoEndpoints.UploadPhoto(old(db.T()), userId, fields, now)
  {
    if userId.None? || userId.value !in db.users || db.users[userId.value].role != CreatorRole {
      return Fail(403, "Only creators can upload photos");
    }
    var id := db.InsertPhoto(NewPhoto(userId.value, fields, now));
    r := Response(201, PhotoAdded(id, "Photo uploaded successfully"));
  }

  /** updatePhoto: SELECT the owner, compare it with the body's userId, then UPDATE. */
  method UpdatePhoto(db: Db, photoId: PhotoId, userId: Option<nat>, title: Option<string>, caption: Option<string>, location: Option<string>, now: nat) returns (r: Response)
    requires db.Valid()
    modifies db
    ensures db.Valid()
    ensures Outcome(db.T(), r) == PhotoEndpoints.UpdatePhoto(old(db.T()), photoId, userId, title, caption, location, now)
  {
    if photoId !in db.photos {
      return Fail(404, "Photo not found");
    }
    if userId != Some(db.photos[photoId].userId) {
      return Fail(403, "Unauthorized");
    }
    db.EditPhoto(photoId, title, caption, location, now);
    r := Response(200, Message("Photo updated successfully"));
  }

  /**
   * deletePhoto: SELECT the owner, SELECT the caller's role, then DELETE.
   * Reading the role of a caller with no Users row throws, which the
   * handler's catch turns into 500.
   */
  method DeletePhoto(db: Db, photoId: PhotoId, userId: Option<nat>) returns (r: Response)
    requires db.Valid()
    modifies db
    ensures db.Valid()
    ensures Outcome(db.T(), r) == DeletePhotoUnguarded(old(db.T()), photoId, userId)
  {
    if photoId !in db.photos {
      return Fail(404, "Photo not found");
    }
    var isOwner := userId == Some(db.photos[photoId].userId);
    if !isOwner {
      if userId.None? || userId.value !in db.users {
        return Fail(500, "Failed to delete photo");
      }
      if db.users[userId.value].role != AdminRole {
        return Fail(403, "Unauthorized");
      }
    }
    db.DeletePhoto(photoId);
    r := Response(200, Message("Photo deleted successfully"));
  }
}
