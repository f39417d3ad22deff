/**
 * backend/functions/getPhotos/index.js: the photo listing, reading the
 * total from the count result's first row, or 0 when there is none.
 */
module GetPhotosFn {
  import opened Wrappers
  import opened JsText
  import opened Ranking
  import opened Store
  import opened Http
  import opened PhotoEndpoints

  method Handle(db: Db, search: Option<string>, pageParam: Option<int>, limitParam: Option<int>) returns (r: Response)
    ensures ListingResponse(db.T(), search, pageParam, limitParam, r)
  {
    var searchTerm := OrElse(search, "");
    var page := pageParam.GetOr(1);
    var limit := limitParam.GetOr(20);
    var offset := (page - 1) * limit;
    if FetchRejected(offset, limit) {
      return Fail(500, "Failed to fetch photos");
    }
    var ranks := ListedRanks(db.T(), searchTerm);
    var ordered := SortDescending(ranks);
    WindowOrdered(ordered, ranks, offset, limit);
    var photos := ListingRows(db.T(), Window(ordered, offset, limit));
    // SELECT COUNT(*) always yields one row.
    var countResult := [PublishedCount(db.T(), searchTerm)];
    var total := if |countResult| > 0 then countResult[0] else 0;
    r := Response(200, PhotoPage(photos, page, limit, total, CeilDiv(total, limit)));
  }
}
