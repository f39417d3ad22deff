/**
 * backend/functions/photo-item/index.js: one handler for a single photo,
 * dispatching on the upper-cased HTTP method to the detail view (with each
 * comment's author id), the owner's edit, the guarded deletion, or 405.
 */
module PhotoItem {
  import opened Wrappers
  import opened JsText
  import opened Ranking
  import opened Store
  import opened Http
  import opened PhotoEndpoints

  /** The parts of the request the handler reads: method, route id, JSON body and query. */
  datatype ItemRequest = ItemRequest(
    verb: Option<string>,
    photoId: PhotoId,
    bodyUserId: Option<nat>, title: Option<string>, caption: Option<string>, location: Option<string>,
    queryUserId: Option<nat>)

  /** `(req.verb || '').toUpperCase()`. */
  function MethodOf(req: ItemRequest): (m: string)
    ensures |m| == |OrElse(req.verb, "")|
  {
    AsciiUpper(OrElse(req.verb, ""))
  }

  /** What the handler does, by method: `before` and `after` are the tables around the request. */
  ghost predicate Handled(before: Tables, after: Tables, req: ItemRequest, now: nat, r: Response) {
    match MethodOf(req)
    case "GET" => after == before.AddView(req.photoId) && DetailResponse(after, req.photoId, true, r)
    case "PUT" => Outcome(after, r) == UpdatePhoto(before, req.photoId, req.bodyUserId, req.title, req.caption, req.location, now)
    case "DELETE" => Outcome(after, r) == DeletePhotoGuarded(before, req.photoId, req.queryUserId)
    case _ => after == before && r == Fail(405, "Method not allowed")
  }

  method Handle(db: Db, req: ItemRequest, now: nat) returns (r: Response)
    requires db.Valid()
    modifies db
    ensures db.Valid()
    ensures Handled(old(db.T()), db.T(), req, now, r)
  {
    var verb := MethodOf(req);
    var photoId := req.photoId;
    if verb == "GET" {
      db.AddView(photoId);
      if !Visible(db.T(), photoId) {
        return Fail(404, "Photo not found");
      }
      var photo := DetailRow(db.T(), photoId);
      var ordered := SortDescending(CommentRanks(db.T(), photoId));
      var comments := CommentRows(db.T(), ordered, true);
      return Response(200, PhotoDetail(photo, comments));
    }
    if verb == "PUT" {
      if photoId !in db.photos {
        return Fail(404, "Photo not found");
      }
      if req.bodyUserId != Some(db.photos[photoId].userId) {
        return Fail(403, "Unauthorized");
      }
      db.EditPhoto(photoId, req.title, req.caption, req.location, now);
      return Response(200, Message("Photo updated successfully"));
    }
    if verb == "DELETE" {
      var userId := req.queryUserId;
      if photoId !in db.photos {
        return Fail(404, "Photo not found");
      }
      if userId.None? || userId.value !in db.users ||
         (db.photos[photoId].userId != userId.value && db.users[userId.value].role != AdminRole) {
        return Fail(403, "Unauthorized");
      }
      db.DeletePhoto(photoId);
      return Response(200, Message("Photo deleted successfully"));
    }
    r := Fail(405, "Method not allowed");
  }

  /** The method name is matched without regard to ASCII case: 'delete' dispatches like 'DELETE'. */
  lemma MethodCaseIgnored(req: ItemRequest)
    requires req.verb == Some("delete")
    ensures MethodOf(req) == "DELETE"
  {
  }

  /** Any method other than GET, PUT or DELETE (in any case) is refused with 405 and changes nothing. */
  lemma OtherMethodsRefused(before: Tables, after: Tables, req: ItemRequest, now: nat, r: Response)
    requires Handled(before, after, req, now, r)
    requires MethodOf(req) !in {"GET", "PUT", "DELETE"}
    ensures after == before && r.status == 405 && r.body == Error("Method not allowed")
  {
  }
}
