/** backend/functions/getPhoto/index.js: the view increment, then the published photo and its comments. */
module GetPhotoFn {
  import opened Wrappers
  import opened Ranking
  import opened Store
  import opened Http
  import opened PhotoEndpoints

  method Handle(db: Db, photoId: PhotoId) returns (r: Response)
    requires db.Valid()
    modifies db
    ensures db.Valid()
    ensures db.T() == old(db.T()).AddView(photoId)
    ensures DetailResponse(db.T(), photoId, false, r)
  {
    db.AddView(photoId);
    if !Visible(db.T(), photoId) {
      return Fail(404, "Photo not found");
    }
    var photo := DetailRow(db.T(), photoId);
    var ordered := SortDescending(CommentRanks(db.T(), photoId));
    var comments := CommentRows(db.T(), ordered, false);
    r := Response(200, PhotoDetail(photo, comments));
  }
}
