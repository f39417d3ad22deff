/**
 * What the photo endpoints read from and do to the Photos table, written
 * once for every handler file that implements them: the public listing
 * with search and paging, the detail view with its comments, the creator
 * upload, the owner's edit and the two authorisation rules for deletion.
 */
module PhotoEndpoints {
  import opened Wrappers
  import opened JsText
  import opened Ranking
  import opened Store
  import opened Http

  // ---------------------------------------------------------------------------
  // Listing
  // ---------------------------------------------------------------------------

  /** `col LIKE '%term%'` on a nullable column: NULL never matches. */
  predicate ColumnMentions(col: Option<string>, term: string) {
    col.Some? && Includes(col.value, term)
  }

  /** The search filter, added only when the search term is not empty. */
  predicate MatchesSearch(p: Photo, term: string) {
    term == "" || ColumnMentions(p.title, term) || ColumnMentions(p.caption, term) || ColumnMentions(p.location, term)
  }

  /** A row the COUNT query counts: published and matching, with no join to Users. */
  predicate Counted(p: Photo, term: string) {
    p.isPublished && MatchesSearch(p, term)
  }

  /** A row the listing SELECT returns: counted, and its owner exists (INNER JOIN Users). */
  predicate Listed(t: Tables, id: PhotoId, term: string) {
    id in t.photos && Counted(t.photos[id], term) && t.photos[id].userId in t.users
  }

  /** The listed photos ranked by CreatedAt, the ORDER BY column. */
  function ListedRanks(t: Tables, term: string): (m: map<PhotoId, int>)
    ensures forall id :: id in m <==> Listed(t, id, term)
  {
    map id | id in t.photos && Listed(t, id, term) :: t.photos[id].createdAt
  }

  /** SELECT COUNT(*) ... WHERE IsPublished = 1 [AND the search filter]. */
  function PublishedCount(t: Tables, term: string): nat {
    |set id | id in t.photos && Counted(t.photos[id], term)|
  }

  /** Math.ceil(total / limit) for a positive limit. */
  function CeilDiv(total: nat, limit: nat): (pages: nat)
    requires limit >= 1
    ensures pages * limit >= total
    ensures pages > 0 ==> (pages - 1) * limit < total
  {
    var q := (total + limit - 1) / limit;
    var rem := (total + limit - 1) % limit;
    assert total + limit - 1 == q * limit + rem && 0 <= rem < limit;
    assert q > 0 ==> (q - 1) * limit == q * limit - limit;
    q
  }

  /** The listing's columns of a photo and its creator. */
  function ListingRow(t: Tables, id: PhotoId): (row: PhotoRow)
    requires id in t.photos && t.photos[id].userId in t.users
  {
    var p := t.photos[id];
    var u := t.users[p.userId];
    PhotoRow(id, p.title, p.caption, p.location, p.imageUrl, p.thumbnailUrl, p.views, p.likes,
             p.createdAt, p.updatedAt, u.name, u.picture, None)
  }

  /** `rows` are the listing rows of `ids`, in that order. */
  ghost predicate RowsOf(t: Tables, ids: seq<PhotoId>, rows: seq<PhotoRow>) {
    |rows| == |ids| &&
    forall i :: 0 <= i < |ids| ==>
      ids[i] in t.photos && t.photos[ids[i]].userId in t.users && rows[i] == ListingRow(t, ids[i])
  }

  function ListingRows(t: Tables, ids: seq<PhotoId>): (rows: seq<PhotoRow>)
    requires forall id :: id in ids ==> id in t.photos && t.photos[id].userId in t.users
    ensures RowsOf(t, ids, rows)
  {
    if ids == [] then [] else [ListingRow(t, ids[0])] + ListingRows(t, ids[1..])
  }

  /** SQL Server rejects a negative OFFSET and a FETCH NEXT count below one. */
  predicate FetchRejected(offset: int, limit: int) {
    offset < 0 || limit < 1
  }

  /**
   * The listing response for query parameters search, page and limit
   * (absent or empty: '', 1 and 20). The rows are a window of some
   * newest-first order of the listed photos; the total comes from the
   * count query.
   */
  ghost predicate ListingResponse(t: Tables, search: Option<string>, pageParam: Option<int>, limitParam: Option<int>, r: Response) {
    var term := OrElse(search, "");
    var page := pageParam.GetOr(1);
    var limit := limitParam.GetOr(20);
    var offset := (page - 1) * limit;
    if FetchRejected(offset, limit) then
      r == Fail(500, "Failed to fetch photos")
    else
      var total := PublishedCount(t, term);
      r.status == 200 && r.body.PhotoPage? &&
      r.body.page == page && r.body.limit == limit &&
      r.body.total == total && r.body.totalPages == CeilDiv(total, limit) &&
      exists ids :: OrderedBy(ids, ListedRanks(t, term)) && RowsOf(t, Window(ids, offset, limit), r.body.photos)
  }

  /** The rows come from `ids` in order; so what is said of the photos of `ids` is said of the rows. */
  lemma RowsOfFacts(t: Tables, ids: seq<PhotoId>, rows: seq<PhotoRow>, term: string)
    requires RowsOf(t, ids, rows) && Descending(ids, ListedRanks(t, term))
    requires forall i, j :: 0 <= i < j < |ids| ==> ids[i] != ids[j]
    ensures forall i :: 0 <= i < |rows| ==> rows[i].photoId in t.photos && Listed(t, rows[i].photoId, term)
    ensures forall i, j :: 0 <= i < j < |rows| ==> rows[i].createdAt >= rows[j].createdAt
    ensures forall i, j :: 0 <= i < j < |rows| ==> rows[i].photoId != rows[j].photoId
  {
    forall i | 0 <= i < |rows|
      ensures rows[i].photoId == ids[i] && Listed(t, ids[i], term)
    {
      assert ids[i] in ListedRanks(t, term);
    }
  }

  /**
   * A successful page holds at most `limit` rows, each a published photo
   * matching the search whose creator exists, newest first, no photo twice,
   * and the page count is the ceiling of total over limit.
   */
  lemma {:induction false} ListingPageFacts(t: Tables, search: Option<string>, pageParam: Option<int>, limitParam: Option<int>, r: Response)
    requires ListingResponse(t, search, pageParam, limitParam, r) && r.status == 200
    ensures var term := OrElse(search, "");
      var b := r.body;
      b.PhotoPage? && b.limit >= 1 && |b.photos| <= b.limit &&
      (forall i :: 0 <= i < |b.photos| ==>
        var id := b.photos[i].photoId;
        id in t.photos && t.photos[id].isPublished && MatchesSearch(t.photos[id], term) && t.photos[id].userId in t.users) &&
      (forall i, j :: 0 <= i < j < |b.photos| ==> b.photos[i].createdAt >= b.photos[j].createdAt) &&
      (forall i, j :: 0 <= i < j < |b.photos| ==> b.photos[i].photoId != b.photos[j].photoId) &&
      b.totalPages * b.limit >= b.total && (b.totalPages > 0 ==> (b.totalPages - 1) * b.limit < b.total)
  {
    var term := OrElse(search, "");
    var page := pageParam.GetOr(1);
    var limit := limitParam.GetOr(20);
    var offset := (page - 1) * limit;
    assert !FetchRejected(offset, limit);
    var ranks := ListedRanks(t, term);
    assert r.body.PhotoPage? && r.body.limit == limit && r.body.totalPages == CeilDiv(r.body.total, limit);
    assert exists ids :: OrderedBy(ids, ranks) && RowsOf(t, Window(ids, offset, limit), r.body.photos);
    var ids :| OrderedBy(ids, ranks) && RowsOf(t, Window(ids, offset, limit), r.body.photos);
    WindowRowsFacts(t, term, ids, offset, limit, r.body.photos);
  }

  /** The rows of one window of an ordered listing: what the page lemma says of its photos. */
  lemma WindowRowsFacts(t: Tables, term: string, ids: seq<PhotoId>, offset: nat, limit: nat, rows: seq<PhotoRow>)
    requires OrderedBy(ids, ListedRanks(t, term)) && RowsOf(t, Window(ids, offset, limit), rows)
    ensures |rows| <= limit
    ensures forall i :: 0 <= i < |rows| ==>
      var id := rows[i].photoId;
      id in t.photos && t.photos[id].isPublished && MatchesSearch(t.photos[id], term) && t.photos[id].userId in t.users
    ensures forall i, j :: 0 <= i < j < |rows| ==> rows[i].createdAt >= rows[j].createdAt
    ensures forall i, j :: 0 <= i < j < |rows| ==> rows[i].photoId != rows[j].photoId
  {
    var w := Window(ids, offset, limit);
    WindowOrdered(ids, ListedRanks(t, term), offset, limit);
    RowsOfFacts(t, w, rows, term);
  }

  // ---------------------------------------------------------------------------
  // Detail
  // ---------------------------------------------------------------------------

  /** The detail SELECT finds the photo: it exists, is published and its owner exists. */
  predicate Visible(t: Tables, id: PhotoId) {
    id in t.photos && t.photos[id].isPublished && t.photos[id].userId in t.users
  }

  /** The detail columns: the listing columns plus the joined u.UserId. */
  function DetailRow(t: Tables, id: PhotoId): (row: PhotoRow)
    requires Visible(t, id)
    ensures row.creatorId == Some(t.photos[id].userId) && row.views == t.photos[id].views
  {
    ListingRow(t, id).(creatorId := Some(t.photos[id].userId))
  }

  /** The comments the detail SELECT joins: on this photo, by an existing user, ranked by CreatedAt. */
  function CommentRanks(t: Tables, photoId: PhotoId): (m: map<CommentId, int>)
    ensures forall c :: c in m <==> c in t.comments && t.comments[c].photoId == photoId && t.comments[c].userId in t.users
  {
    map c | c in t.comments && t.comments[c].photoId == photoId && t.comments[c].userId in t.users :: t.comments[c].createdAt
  }

  /** One comment row; c.UserId is included only when `withAuthor`. */
  function CommentRowOf(t: Tables, c: CommentId, withAuthor: bool): CommentRow
    requires c in t.comments && t.comments[c].userId in t.users
  {
    var cm := t.comments[c];
    var u := t.users[cm.userId];
    CommentRow(c, cm.text, cm.createdAt, if withAuthor then Some(cm.userId) else None, u.name, u.picture)
  }

  ghost predicate CommentRowsOf(t: Tables, ids: seq<CommentId>, withAuthor: bool, rows: seq<CommentRow>) {
    |rows| == |ids| &&
    forall i :: 0 <= i < |ids| ==>
      ids[i] in t.comments && t.comments[ids[i]].userId in t.users && rows[i] == CommentRowOf(t, ids[i], withAuthor)
  }

  function CommentRows(t: Tables, ids: seq<CommentId>, withAuthor: bool): (rows: seq<CommentRow>)
    requires forall c :: c in ids ==> c in t.comments && t.comments[c].userId in t.users
    ensures CommentRowsOf(t, ids, withAuthor, rows)
  {
    if ids == [] then [] else [CommentRowOf(t, ids[0], withAuthor)] + CommentRows(t, ids[1..], withAuthor)
  }

  /**
   * The detail response, read from the tables after the view increment:
   * 404 unless the photo is visible, otherwise its row and all its
   * comments, newest first.
   */
  ghost predicate DetailResponse(t: Tables, photoId: PhotoId, withAuthor: bool, r: Response) {
    if !Visible(t, photoId) then
      r == Fail(404, "Photo not found")
    else
      r.status == 200 && r.body.PhotoDetail? && r.body.photo == DetailRow(t, photoId) &&
      exists ids :: OrderedBy(ids, CommentRanks(t, photoId)) && CommentRowsOf(t, ids, withAuthor, r.body.comments)
  }

  /**
   * The view is counted before the published check: a stored but
   * unpublished photo gains a view and still answers 404, and a visible
   * photo's row already includes the view.
   */
  lemma ViewCountedFirst(t: Tables, photoId: PhotoId, withAuthor: bool, r: Response)
    requires photoId in t.photos && DetailResponse(t.AddView(photoId), photoId, withAuthor, r)
    ensures t.AddView(photoId).photos[photoId].views == t.photos[photoId].views + 1
    ensures !t.photos[photoId].isPublished ==> r.status == 404
    ensures r.status == 200 ==> r.body.photo.views == t.photos[photoId].views + 1
  {
  }

  /** Every comment of a visible photo by an existing user appears exactly once, newest first. */
  lemma {:induction false} DetailCommentsFacts(t: Tables, photoId: PhotoId, withAuthor: bool, r: Response)
    requires DetailResponse(t, photoId, withAuthor, r) && r.status == 200
    ensures var rows := r.body.comments;
      (forall c :: c in t.comments && t.comments[c].photoId == photoId && t.comments[c].userId in t.users ==>
        exists i :: 0 <= i < |rows| && rows[i].commentId == c) &&
      (forall i :: 0 <= i < |rows| ==> rows[i].commentId in t.comments && t.comments[rows[i].commentId].photoId == photoId) &&
      (forall i, j :: 0 <= i < j < |rows| ==> rows[i].commentId != rows[j].commentId) &&
      (forall i, j :: 0 <= i < j < |rows| ==> rows[i].createdAt >= rows[j].createdAt) &&
      (forall i :: 0 <= i < |rows| ==> (rows[i].authorId.Some? <==> withAuthor))
  {
    var ranks := CommentRanks(t, photoId);
    var ids :| OrderedBy(ids, ranks) && CommentRowsOf(t, ids, withAuthor, r.body.comments);
    var rows := r.body.comments;
    forall c | c in t.comments && t.comments[c].photoId == photoId && t.comments[c].userId in t.users
      ensures exists i :: 0 <= i < |rows| && rows[i].commentId == c
    {
      assert c in ranks;
      var i :| 0 <= i < |ids| && ids[i] == c;
      assert rows[i].commentId == c;
    }
    forall i | 0 <= i < |rows|
      ensures rows[i].commentId == ids[i] && ids[i] in ranks
    {
    }
  }

  // ---------------------------------------------------------------------------
  // Upload, edit, delete
  // ---------------------------------------------------------------------------

  /** SELECT Role FROM Users WHERE UserId = @userId finds Role 'creator'. */
  predicate IsCreator(t: Tables, userId: Option<nat>) {
    userId.Some? && userId.value in t.users && t.users[userId.value].role == CreatorRole
  }

  /** The creator upload of a photo's metadata: only a creator may insert (403). */
  function UploadPhoto(t: Tables, userId: Option<nat>, f: PhotoFields, now: nat): (o: Outcome)
    ensures o.response.status == 403 <==> !IsCreator(t, userId)
    ensures o.response.status == 403 ==> o == Outcome(t, Fail(403, "Only creators can upload photos"))
    ensures o.response.status != 403 ==>
      o.response == Response(201, PhotoAdded(t.nextPhotoId, "Photo uploaded successfully")) &&
      o.tables == t.InsertPhoto(NewPhoto(userId.value, f, now)) &&
      var p := o.tables.photos[t.nextPhotoId];
      p.userId == userId.value && p.views == 0 && p.likes == 0 &&
      p.title == f.title && p.imageUrl == f.imageUrl
    ensures t.WellFormed() ==> o.tables.WellFormed() && (o.response.status == 201 ==> t.nextPhotoId !in t.photos)
  {
    if !IsCreator(t, userId) then Outcome(t, Fail(403, "Only creators can upload photos"))
    else Outcome(t.InsertPhoto(NewPhoto(userId.value, f, now)), Response(201, PhotoAdded(t.nextPhotoId, "Photo uploaded successfully")))
  }

  /**
   * The owner's edit: 404 for an unknown photo, 403 unless the body's
   * userId is strictly equal to the owner; otherwise Title, Caption and
   * Location take the body's values (NULL when absent) and UpdatedAt the
   * current time. Nothing else changes.
   */
  function UpdatePhoto(t: Tables, photoId: PhotoId, userId: Option<nat>, title: Option<string>, caption: Option<string>, location: Option<string>, now: nat): (o: Outcome)
    ensures o.response.status == 404 <==> photoId !in t.photos
    ensures o.response.status == 403 <==> photoId in t.photos && userId != Some(t.photos[photoId].userId)
    ensures o.response.status == 404 ==> o.response.body == Error("Photo not found")
    ensures o.response.status == 403 ==> o.response.body == Error("Unauthorized")
    ensures o.response.status != 200 ==> o.tables == t
    ensures o.response.status == 200 ==>
      o.response.body == Message("Photo updated successfully") &&
      var p := t.photos[photoId];
      o.tables.photos == t.photos[photoId := p.(title := title, caption := caption, location := location, updatedAt := now)] &&
      o.tables.users == t.users && o.tables.comments == t.comments && o.tables.likes == t.likes
    ensures o.response.status in {200, 403, 404}
  {
    if photoId !in t.photos then Outcome(t, Fail(404, "Photo not found"))
    else if userId != Some(t.photos[photoId].userId) then Outcome(t, Fail(403, "Unauthorized"))
    else Outcome(t.EditPhoto(photoId, title, caption, location, now), Response(200, Message("Photo updated successfully")))
  }

  /** SELECT Role FROM Users WHERE UserId = @userId finds Role 'admin'. */
  predicate IsAdminUser(t: Tables, userId: Option<nat>) {
    userId.Some? && userId.value in t.users && t.users[userId.value].role == AdminRole
  }

  /**
   * Deletion guarded by `UserId !== parseInt(userId) && users[0].Role !== 'admin'`
   * with no check that the caller's row exists: the owner's own request
   * short-circuits, but any other caller without a Users row (or with no
   * userId at all) makes `users[0].Role` throw, which ends in 500.
   */
  function DeletePhotoUnguarded(t: Tables, photoId: PhotoId, userId: Option<nat>): (o: Outcome)
    ensures o.response.status in {200, 403, 404, 500}
    ensures o.response.status == 404 <==> photoId !in t.photos
    ensures o.response.status == 500 <==>
      photoId in t.photos && userId != Some(t.photos[photoId].userId) && (userId.None? || userId.value !in t.users)
    ensures o.response.status == 500 ==> o.response.body == Error("Failed to delete photo")
    ensures o.response.status == 403 ==> o.response.body == Error("Unauthorized") && !IsAdminUser(t, userId)
    ensures o.response.status == 200 <==>
      photoId in t.photos && (userId == Some(t.photos[photoId].userId) || IsAdminUser(t, userId))
    ensures o.response.status == 200 ==>
      o.tables == t.DeletePhoto(photoId) && o.response.body == Message("Photo deleted successfully")
    ensures o.response.status != 200 ==> o.tables == t
  {
    if photoId !in t.photos then Outcome(t, Fail(404, "Photo not found"))
    else if userId == Some(t.photos[photoId].userId) then
      Outcome(t.DeletePhoto(photoId), Response(200, Message("Photo deleted successfully")))
    else if userId.None? || userId.value !in t.users then Outcome(t, Fail(500, "Failed to delete photo"))
    else if t.users[userId.value].role != AdminRole then Outcome(t, Fail(403, "Unauthorized"))
    else Outcome(t.DeletePhoto(photoId), Response(200, Message("Photo deleted successfully")))
  }

  /**
   * Deletion guarded by `users.length === 0 || (not owner && not admin)`:
   * the caller must have a Users row, and be the owner or an admin.
   */
  function DeletePhotoGuarded(t: Tables, photoId: PhotoId, userId: Option<nat>): (o: Outcome)
    ensures o.response.status in {200, 403, 404}
    ensures o.response.status == 404 <==> photoId !in t.photos
    ensures o.response.status == 404 ==> o.response.body == Error("Photo not found")
    ensures o.response.status == 403 ==> o.response.body == Error("Unauthorized")
    ensures o.response.status == 200 <==>
      photoId in t.photos && userId.Some? && userId.value in t.users &&
      (userId.value == t.photos[photoId].userId || t.users[userId.value].role == AdminRole)
    ensures o.response.status == 200 ==>
      o.tables == t.DeletePhoto(photoId) && o.response.body == Message("Photo deleted successfully")
    ensures o.response.status != 200 ==> o.tables == t
  {
    if photoId !in t.photos then Outcome(t, Fail(404, "Photo not found"))
    else if userId.None? || userId.value !in t.users then Outcome(t, Fail(403, "Unauthorized"))
    else if userId.value != t.photos[photoId].userId && t.users[userId.value].role != AdminRole then
      Outcome(t, Fail(403, "Unauthorized"))
    else Outcome(t.DeletePhoto(photoId), Response(200, Message("Photo deleted successfully")))
  }

  /**
   * The two deletion rules agree whenever the caller has a Users row; for
   * an owner without one, the unguarded rule deletes and the guarded one
   * refuses, and for any other caller without one the unguarded rule
   * fails with 500 where the guarded one answers 403.
   */
  lemma DeletionRulesCompared(t: Tables, photoId: PhotoId, userId: Option<nat>)
    requires photoId in t.photos
    ensures userId.Some? && userId.value in t.users ==>
      DeletePhotoUnguarded(t, photoId, userId) == DeletePhotoGuarded(t, photoId, userId)
    ensures userId == Some(t.photos[photoId].userId) && userId.value !in t.users ==>
      DeletePhotoUnguarded(t, photoId, userId).response.status == 200 &&
      DeletePhotoGuarded(t, photoId, userId).response.status == 403
    ensures userId != Some(t.photos[photoId].userId) && (userId.None? || userId.value !in t.users) ==>
      DeletePhotoUnguarded(t, photoId, userId).response.status == 500 &&
      DeletePhotoGuarded(t, photoId, userId).response.status == 403
  {
  }

  /** `t2` is `t` without photo `photoId`, with every other table as it was. */
  ghost predicate OnlyPhotoRemoved(t: Tables, t2: Tables, photoId: PhotoId) {
    t2.photos.Keys == t.photos.Keys - {photoId} &&
    (forall id :: id in t2.photos ==> t2.photos[id] == t.photos[id]) &&
    t2.users == t.users && t2.comments == t.comments && t2.likes == t.likes
  }

  /**
   * A successful deletion, under either rule, removes exactly that photo;
   * its comments and likes stay (no cascade is modelled).
   */
  lemma DeletionRemovesOnlyThePhoto(t: Tables, photoId: PhotoId, userId: Option<nat>)
    ensures DeletePhotoUnguarded(t, photoId, userId).response.status == 200 ==>
      OnlyPhotoRemoved(t, DeletePhotoUnguarded(t, photoId, userId).tables, photoId)
    ensures DeletePhotoGuarded(t, photoId, userId).response.status == 200 ==>
      OnlyPhotoRemoved(t, DeletePhotoGuarded(t, photoId, userId).tables, photoId)
  {
  }
}
