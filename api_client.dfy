// The browser's side of the HTTP contract: endpoint paths, the query of a
// gallery page, how a reply becomes a result or an exception, the client
// file check and the relative date label.

module ApiClient {
  import opened Wrappers
  import opened JsText
  import opened Http
  import StorageEndpoints
  import PhotoEndpoints
  import Blobs
  import Store

  /** A JavaScript value that is a number, null or undefined (an id as the page holds it). */
  datatype JsId = Undefined | Null | Num(n: nat)

  /** `String(v)` of such a value, as a template literal or `replace` writes it. */
  function IdText(v: JsId): (s: string)
    ensures v.Num? ==> IsDigits(s) && DecimalValue(s) == v.n
    ensures !v.Num? ==> s == "undefined" || s == "null"
    ensures '$' !in s
  {
    match v
    case Undefined => "undefined"
    case Null => "null"
    case Num(n) => DecimalRoundTrip(n); DecimalString(n)
  }

  // ---------------------------------------------------------------------------
  // Configuration
  // ---------------------------------------------------------------------------

  /** The placeholders of the endpoint templates. */
  const IdSlot: string := "{id}"
  const FileNameSlot: string := "{fileName}"

  const GoogleAuthPath: string := "/auth/google"
  const GetUserTemplate: string := "/auth/user"
  const UpdateUserRoleTemplate: string := "/users/" + IdSlot + "/role"
  const GetPhotosPath: string := "/photos"
  const GetPhotoTemplate: string := "/photos/" + IdSlot
  const UploadPhotoPath: string := "/photos/upload"
  const UpdatePhotoTemplate: string := "/photos/" + IdSlot
  const DeletePhotoTemplate: string := "/photos/" + IdSlot
  const LikePhotoTemplate: string := "/photos/" + IdSlot + "/like"
  const AddCommentTemplate: string := "/photos/" + IdSlot + "/comments"
  const DeleteCommentTemplate: string := "/comments/" + IdSlot
  const UploadToStoragePath: string := "/storage/upload"
  const DeleteFromStorageTemplate: string := "/storage/" + FileNameSlot

  const PhotosPerPage: nat := 20
  const MaxFileSize: nat := 10 * 1024 * 1024
  const AllowedFileTypes: seq<string> := ["image/jpeg", "image/jpg", "image/png", "image/webp"]

  // ---------------------------------------------------------------------------
  // Endpoint paths
  // ---------------------------------------------------------------------------

  /** `template.replace('{id}', v)` for a template `prefix + '{id}' + suffix` whose prefix has no '{'. */
  lemma FillId(prefix: string, suffix: string, v: JsId)
    requires '{' !in prefix
    ensures ReplaceFirst(prefix + IdSlot + suffix, IdSlot, IdText(v)) == prefix + IdText(v) + suffix
    ensures ReplaceFirst(prefix + IdSlot, IdSlot, IdText(v)) == prefix + IdText(v)
  {
    ReplaceFirstPlain(prefix, IdSlot, suffix, IdText(v));
    ReplaceFirstPlain(prefix, IdSlot, "", IdText(v));
    assert prefix + IdSlot + "" == prefix + IdSlot;
    assert prefix + IdText(v) + "" == prefix + IdText(v);
  }

  /** `getPhoto.replace('{id}', photoId)`. */
  function GetPhotoPath(photoId: JsId): (path: string)
    ensures path == "/photos/" + IdText(photoId)
  {
    FillId("/photos/", "", photoId);
    ReplaceFirst(GetPhotoTemplate, IdSlot, IdText(photoId))
  }

  /** `updatePhoto.replace('{id}', photoId)`. */
  function UpdatePhotoPath(photoId: JsId): (path: string)
    ensures path == "/photos/" + IdText(photoId)
  {
    FillId("/photos/", "", photoId);
    ReplaceFirst(UpdatePhotoTemplate, IdSlot, IdText(photoId))
  }

  /** The delete request: the photo path with the caller's id in the query string. */
  function DeletePhotoPath(photoId: JsId, userId: JsId): (path: string)
    ensures path == "/photos/" + IdText(photoId) + "?userId=" + IdText(userId)
  {
    FillId("/photos/", "", photoId);
    ReplaceFirst(DeletePhotoTemplate, IdSlot, IdText(photoId)) + "?userId=" + IdText(userId)
  }

  /** `likePhoto.replace('{id}', photoId)`. */
  function LikePhotoPath(photoId: JsId): (path: string)
    ensures path == "/photos/" + IdText(photoId) + "/like"
  {
    FillId("/photos/", "/like", photoId);
    ReplaceFirst(LikePhotoTemplate, IdSlot, IdText(photoId))
  }

  /** `addComment.replace('{id}', photoId)`. */
  function AddCommentPath(photoId: JsId): (path: string)
    ensures path == "/photos/" + IdText(photoId) + "/comments"
  {
    FillId("/photos/", "/comments", photoId);
    ReplaceFirst(AddCommentTemplate, IdSlot, IdText(photoId))
  }

  /** The comment delete request, with the caller's id in the query string. */
  function DeleteCommentPath(commentId: JsId, userId: JsId): (path: string)
    ensures path == "/comments/" + IdText(commentId) + "?userId=" + IdText(userId)
  {
    FillId("/comments/", "", commentId);
    ReplaceFirst(DeleteCommentTemplate, IdSlot, IdText(commentId)) + "?userId=" + IdText(userId)
  }

  /** `updateUserRole.replace('{id}', userId)`. */
  function UpdateUserRolePath(userId: JsId): (path: string)
    ensures path == "/users/" + IdText(userId) + "/role"
  {
    FillId("/users/", "/role", userId);
    ReplaceFirst(UpdateUserRoleTemplate, IdSlot, IdText(userId))
  }

  /**
   * `deleteFromStorage.replace('{fileName}', fileName)`; the name is put in
   * the path without percent-encoding, and its `$` patterns are expanded as
   * `replace` expands them.
   */
  function DeleteFilePath(fileName: string): (path: string)
    ensures path == "/storage/" + Expand(fileName, FileNameSlot, "/storage/", "")
    ensures '$' !in fileName ==> path == "/storage/" + fileName
  {
    ReplaceFirstOfTemplate("/storage/", FileNameSlot, "", fileName);
    assert DeleteFromStorageTemplate + "" == DeleteFromStorageTemplate;
    ReplaceFirst(DeleteFromStorageTemplate, FileNameSlot, fileName)
  }

  /** A stored name starting with `$&` is not requested as itself: the pattern brings back the unfilled template. */
  lemma DollarAmpersandName(rest: string)
    requires '$' !in rest
    ensures DeleteFilePath("$&" + rest) == DeleteFromStorageTemplate + rest
  {
    var e := "$&" + rest;
    var m := FileNameSlot;
    assert e[0] == '$' && e[1] == '&' && e[2..] == rest;
    assert Expand(rest, m, "/storage/", "") == rest;
    var x := Expand(e, m, "/storage/", "");
    assert x == m + rest;
    assert DeleteFromStorageTemplate == "/storage/" + m;
    assert "/storage/" + x == DeleteFromStorageTemplate + rest;
  }

  /** A stored name starting with `$$` is requested with a single `$`, so another blob is named. */
  lemma DoubleDollarName(rest: string)
    requires '$' !in rest
    ensures DeleteFilePath("$$" + rest) == "/storage/$" + rest
  {
    var e := "$$" + rest;
    assert e[0] == '$' && e[1] == '$' && e[2..] == rest;
    assert Expand(e, FileNameSlot, "/storage/", "") == "$" + rest;
    assert "/storage/" + ("$" + rest) == "/storage/$" + rest;
  }

  /**
   * `getUser.replace('{id}', userId)`: the configured path has no `{id}`,
   * so every user lookup asks for `/auth/user`, whichever user is meant.
   */
  function GetUserPath(userId: JsId): (path: string)
    ensures path == "/auth/user"
  {
    ReplaceFirstAbsent(GetUserTemplate, IdSlot, IdText(userId));
    ReplaceFirst(GetUserTemplate, IdSlot, IdText(userId))
  }

  /** Two different users are looked up with the same request path, one that carries no id. */
  lemma GetUserPathCarriesNoId(a: nat, b: nat)
    ensures GetUserPath(Num(a)) == GetUserPath(Num(b))
    ensures !Includes(GetUserPath(Num(a)), IdText(Num(a)))
  {
    var id := IdText(Num(a));
    assert id != [] && '0' <= id[0] <= '9';
    assert id[0] !in GetUserTemplate;
    AbsentFirstChar(GetUserTemplate, id);
  }

  // ---------------------------------------------------------------------------
  // The gallery query
  // ---------------------------------------------------------------------------

  /** The parameters `getPhotos` puts in the query string. */
  datatype PhotoQuery = PhotoQuery(page: int, limit: nat, search: Option<string>)

  /** `new URLSearchParams({ page, limit })`, with `search` appended only when it is non-empty. */
  function GetPhotosQuery(page: int, search: string): (q: PhotoQuery)
    ensures q.page == page && q.limit == PhotosPerPage
    ensures q.search.Some? <==> search != ""
    ensures q.search.Some? ==> q.search.value == search
  {
    PhotoQuery(page, PhotosPerPage, if search == "" then None else Some(search))
  }

  /**
   * The backend reads the query as the browser meant it: the search term it
   * filters by is the one typed, and any page from 1 on is served (status 200)
   * rather than rejected by the row window.
   */
  lemma GalleryQueryServed(t: Store.Tables, page: int, search: string, r: Response)
    requires page >= 1
    requires var q := GetPhotosQuery(page, search);
      PhotoEndpoints.ListingResponse(t, q.search, Some(q.page), Some(q.limit), r)
    ensures OrElse(GetPhotosQuery(page, search).search, "") == search
    ensures r.status == 200 && r.body.PhotoPage? && r.body.page == page && r.body.limit == PhotosPerPage
  {
    var offset := (page - 1) * 20;
    assert offset >= 0;
    assert !PhotoEndpoints.FetchRejected(offset, 20);
  }

  // ---------------------------------------------------------------------------
  // apiRequest
  // ---------------------------------------------------------------------------

  /** `response.ok`: a 2xx status. */
  predicate Ok(status: nat) {
    200 <= status <= 299
  }

  /**
   * `apiRequest`: the parsed body of an ok reply, otherwise an exception
   * whose message is the body's `error` or, when that is missing or empty,
   * 'Request failed'.
   */
  function ApiRequest(r: Response): (res: Result<Body>)
    ensures res.Success? <==> Ok(r.status)
    ensures res.Success? ==> res.value == r.body
    ensures res.Failure? ==> res.error != ""
    ensures res.Failure? && r.body.Error? && r.body.error != "" ==> res.error == r.body.error
    ensures res.Failure? && !(r.body.Error? && r.body.error != "") ==> res.error == "Request failed"
  {
    if !Ok(r.status) then
      Failure(if r.body.Error? && r.body.error != "" then r.body.error else "Request failed")
    else
      Success(r.body)
  }

  /** Every error the backend reports with a message reaches the page as that message. */
  lemma BackendErrorsSurface(status: nat, error: string)
    requires status >= 400 && error != ""
    ensures ApiRequest(Fail(status, error)) == Failure(error)
  {
  }

  // ---------------------------------------------------------------------------
  // validateFile
  // ---------------------------------------------------------------------------

  /** `validateFile`: the type must be in the allowlist, then the size at most 10 MiB. */
  function ValidateFile(fileType: string, size: nat): (res: Result<bool>)
    ensures res.Success? <==> fileType in AllowedFileTypes && size <= MaxFileSize
    ensures res.Success? ==> res.value
    ensures fileType !in AllowedFileTypes ==>
      res == Failure("Invalid file type. Please upload JPEG, PNG, or WebP images.")
    ensures fileType in AllowedFileTypes && size > MaxFileSize ==>
      res == Failure("File size exceeds 10MB limit.")
  {
    if fileType !in AllowedFileTypes then Failure("Invalid file type. Please upload JPEG, PNG, or WebP images.")
    else if size > MaxFileSize then Failure("File size exceeds 10MB limit.")
    else Success(true)
  }

  /**
   * The browser's check and the validated upload's checks agree: a file
   * sent as multipart with its browser type passes one exactly when it
   * passes the other.
   */
  lemma ClientCheckMatchesServer(blobs: map<string, Blobs.Blob>, containerUrl: string, contentType: Option<string>,
                                 filename: Option<string>, fileType: string, size: nat, now: nat)
    requires !StorageEndpoints.NotMultipart(contentType)
    ensures ValidateFile(fileType, size).Success? <==>
      StorageEndpoints.UploadValidated(blobs, containerUrl, contentType,
        [StorageEndpoints.Part(filename, Some(fileType), size)], now).response.status == 200
  {
    assert AllowedFileTypes == StorageEndpoints.AllowedTypes;
    assert MaxFileSize == StorageEndpoints.MaxUploadSize;
  }

  // ---------------------------------------------------------------------------
  // formatDate
  // ---------------------------------------------------------------------------

  /** The bucket a time difference falls in, with its whole count. */
  datatype Age = JustNow | Minutes(n: nat) | Hours(n: nat) | Days(n: nat) | Older

  const MsPerMinute: nat := 60000
  const MsPerHour: nat := 3600000
  const MsPerDay: nat := 86400000

  /**
   * The buckets of `formatDate` by floor division of the elapsed
   * milliseconds: each covers a contiguous range, and a count shown is
   * always at least one and below the next unit.
   */
  function AgeOf(diffMs: int): (a: Age)
    ensures a == JustNow <==> diffMs < MsPerMinute
    ensures a.Minutes? <==> MsPerMinute <= diffMs < MsPerHour
    ensures a.Hours? <==> MsPerHour <= diffMs < MsPerDay
    ensures a.Days? <==> MsPerDay <= diffMs < 7 * MsPerDay
    ensures a == Older <==> diffMs >= 7 * MsPerDay
    ensures a.Minutes? ==> 1 <= a.n < 60 && a.n * MsPerMinute <= diffMs < (a.n + 1) * MsPerMinute
    ensures a.Hours? ==> 1 <= a.n < 24 && a.n * MsPerHour <= diffMs < (a.n + 1) * MsPerHour
    ensures a.Days? ==> 1 <= a.n < 7 && a.n * MsPerDay <= diffMs < (a.n + 1) * MsPerDay
  {
    var mins := diffMs / MsPerMinute;
    var hours := diffMs / MsPerHour;
    var days := diffMs / MsPerDay;
    if mins < 1 then JustNow
    else if mins < 60 then Minutes(mins)
    else if hours < 24 then Hours(hours)
    else if days < 7 then Days(days)
    else Older
  }

  /** `${n} unit${n > 1 ? 's' : ''} ago`. */
  function CountAgo(n: nat, unit: string): string {
    DecimalString(n) + " " + unit + (if n > 1 then "s" else "") + " ago"
  }

  /** `formatDate`; `calendarDate` stands for the en-US short date, shown from a week on. */
  function FormatDate(diffMs: int, calendarDate: string): string {
    match AgeOf(diffMs)
    case JustNow => "Just now"
    case Minutes(n) => CountAgo(n, "minute")
    case Hours(n) => CountAgo(n, "hour")
    case Days(n) => CountAgo(n, "day")
    case Older => calendarDate
  }

  /** The unit takes a plural 's' exactly when the count is above one. */
  lemma PluralExactlyAboveOne(n: nat, unit: string)
    requires unit != [] && unit[|unit| - 1] != 's'
    ensures var s := CountAgo(n, unit);
      |s| >= 5 && (s[|s| - 5..] == "s ago" <==> n > 1)
  {
    var s := CountAgo(n, unit);
    var head := DecimalString(n) + " " + unit;
    if n > 1 {
      assert s == head + "s ago";
    } else {
      assert s == head + " ago";
      assert s[|s| - 5] == head[|head| - 1] == unit[|unit| - 1];
    }
  }

  /** The label names the unit of the bucket, with the count in digits first. */
  lemma FormatDateLabels(diffMs: int, calendarDate: string)
    ensures diffMs < MsPerMinute ==> FormatDate(diffMs, calendarDate) == "Just now"
    ensures MsPerMinute <= diffMs < MsPerHour ==>
      FormatDate(diffMs, calendarDate) == CountAgo(diffMs / MsPerMinute, "minute")
    ensures MsPerHour <= diffMs < MsPerDay ==>
      FormatDate(diffMs, calendarDate) == CountAgo(diffMs / MsPerHour, "hour")
    ensures MsPerDay <= diffMs < 7 * MsPerDay ==>
      FormatDate(diffMs, calendarDate) == CountAgo(diffMs / MsPerDay, "day")
    ensures diffMs >= 7 * MsPerDay ==> FormatDate(diffMs, calendarDate) == calendarDate
  {
  }
}
