/**
 * The blob-storage endpoints: the validated upload (multipart content
 * type, a part, an allowed image type and at most 10 MiB, in that order),
 * the unvalidated upload with a generated name, and deletion.
 *
 * Multipart parsing is not modelled: a request's parts arrive already
 * parsed, each with its client file name, declared type and byte length.
 */
module StorageEndpoints {
  import opened Wrappers
  import opened JsText
  import opened Http
  import opened Blobs

  datatype Part = Part(filename: Option<string>, mimeType: Option<string>, size: nat)

  /** What a storage request leaves behind: the container's blobs and the response. */
  datatype StorageOutcome = StorageOutcome(blobs: map<string, Blob>, response: Response)

  /** 10 * 1024 * 1024 bytes. */
  const MaxUploadSize: nat := 10 * 1024 * 1024

  const AllowedTypes: seq<string> := ["image/jpeg", "image/jpg", "image/png", "image/webp"]

  /** `allowedTypes.includes(mimeType)`: an undefined type is not allowed. */
  predicate AllowedType(mimeType: Option<string>) {
    mimeType.Some? && mimeType.value in AllowedTypes
  }

  /** `!contentType || !contentType.includes('multipart/form-data')`. */
  predicate NotMultipart(contentType: Option<string>) {
    contentType.None? || !Includes(contentType.value, "multipart/form-data")
  }

  /** `${Date.now()}-${filePart.filename}`. */
  function StampedName(now: nat, filename: Option<string>): (name: string)
    ensures |name| == |DecimalString(now)| + 1 + |Interpolate(filename)|
    ensures IsDigits(name[..|DecimalString(now)|]) && DecimalValue(name[..|DecimalString(now)|]) == now
    ensures name[|DecimalString(now)|] == '-' && name[|DecimalString(now)| + 1..] == Interpolate(filename)
  {
    DecimalRoundTrip(now);
    var stamp := DecimalString(now);
    var name := stamp + "-" + Interpolate(filename);
    assert name[..|stamp|] == stamp;
    assert name[|stamp| + 1..] == Interpolate(filename);
    name
  }

  /** The first '-' of a stamped name follows the timestamp, so the name splits back into time and client name. */
  lemma StampedNameSplits(now: nat, filename: Option<string>)
    ensures var name := StampedName(now, filename);
      var i := IndexOf(name, "-");
      i == |DecimalString(now)| && DecimalValue(name[..i]) == now && name[i + 1..] == Interpolate(filename)
  {
    var stamp := DecimalString(now);
    var name := StampedName(now, filename);
    forall j | 0 <= j < |stamp|
      ensures !MatchAt(name, "-", j)
    {
      assert name[j] == stamp[j];
    }
    assert MatchAt(name, "-", |stamp|);
    FirstMatch(name, "-", |stamp|);
  }

  /** A match at `i` with none before it is what IndexOf finds. */
  lemma FirstMatch(s: string, pat: string, i: nat)
    requires MatchAt(s, pat, i)
    requires forall j :: 0 <= j < i ==> !MatchAt(s, pat, j)
    ensures IndexOf(s, pat) == i
  {
  }

  /**
   * The validated upload: each check in turn, then the first part is
   * stored under the stamped name with its declared type.
   */
  function UploadValidated(blobs: map<string, Blob>, containerUrl: string, contentType: Option<string>, parts: seq<Part>, now: nat): (o: StorageOutcome)
    ensures o.response.status in {200, 400}
    ensures o.response.status == 400 ==> o.blobs == blobs
    ensures NotMultipart(contentType) ==> o.response == Fail(400, "Content-Type must be multipart/form-data")
    ensures !NotMultipart(contentType) && parts == [] ==> o.response == Fail(400, "No file uploaded")
    ensures !NotMultipart(contentType) && parts != [] && !AllowedType(parts[0].mimeType) ==>
      o.response == Fail(400, "Invalid file type. Only JPEG, PNG, and WebP are allowed.")
    ensures !NotMultipart(contentType) && parts != [] && AllowedType(parts[0].mimeType) && parts[0].size > MaxUploadSize ==>
      o.response == Fail(400, "File size exceeds 10MB limit")
    ensures o.response.status == 200 <==>
      !NotMultipart(contentType) && parts != [] && AllowedType(parts[0].mimeType) && parts[0].size <= MaxUploadSize
    ensures o.response.status == 200 ==>
      var name := StampedName(now, parts[0].filename);
      o.blobs == blobs[name := Blob(parts[0].size, parts[0].mimeType.value)] &&
      o.response == Response(200, FileStored(BlobUrl(containerUrl, name), name, Some("File uploaded successfully")))
  {
    if NotMultipart(contentType) then StorageOutcome(blobs, Fail(400, "Content-Type must be multipart/form-data"))
    else if parts == [] then StorageOutcome(blobs, Fail(400, "No file uploaded"))
    else
      var part := parts[0];
      var name := StampedName(now, part.filename);
      if !AllowedType(part.mimeType) then StorageOutcome(blobs, Fail(400, "Invalid file type. Only JPEG, PNG, and WebP are allowed."))
      else if part.size > MaxUploadSize then StorageOutcome(blobs, Fail(400, "File size exceeds 10MB limit"))
      else
        StorageOutcome(blobs[name := Blob(part.size, part.mimeType.value)],
                       Response(200, FileStored(BlobUrl(containerUrl, name), name, Some("File uploaded successfully"))))
  }

  /** The cap is inclusive: a file of exactly 10 MiB is stored, one byte more is refused. */
  lemma SizeCapInclusive(blobs: map<string, Blob>, containerUrl: string, contentType: Option<string>, p: Part, now: nat)
    requires !NotMultipart(contentType) && AllowedType(p.mimeType)
    ensures UploadValidated(blobs, containerUrl, contentType, [p.(size := MaxUploadSize)], now).response.status == 200
    ensures UploadValidated(blobs, containerUrl, contentType, [p.(size := MaxUploadSize + 1)], now).response.status == 400
  {
  }

  /** The suffix of a file name from its last '.', or '' when it has none (or no name). */
  function Extension(filename: Option<string>): (ext: string)
    ensures ext == [] <==> FalsyString(filename) || '.' !in filename.value
    ensures ext != [] ==>
      ext[0] == '.' && '.' !in ext[1..] &&
      |ext| <= |filename.value| && filename.value[|filename.value| - |ext|..] == ext
  {
    if !FalsyString(filename) && '.' in filename.value then
      var s := filename.value;
      var i := LastIndexOf(s, '.');
      assert i >= 0 by {
        var j :| 0 <= j < |s| && s[j] == '.';
      }
      var tail := s[i + 1..];
      forall k | 0 <= k < |tail|
        ensures tail[k] != '.'
      {
        assert tail[k] == s[i + 1 + k];
      }
      s[i..]
    else
      ""
  }

  /** `extension.length > 10 ? extension.slice(0, 10) : extension`. */
  function SafeExtension(filename: Option<string>): (ext: string)
    ensures |ext| <= 10 && |ext| <= |Extension(filename)|
    ensures ext == Extension(filename)[..|ext|]
    ensures |Extension(filename)| <= 10 ==> ext == Extension(filename)
    ensures |Extension(filename)| > 10 ==> ext == Extension(filename)[..10]
  {
    var e := Extension(filename);
    if |e| > 10 then e[..10] else e
  }

  /** `${Date.now()}-${Math.round(Math.random() * 1e6)}${safeExtension}`. */
  function GeneratedName(now: nat, rnd: nat, filename: Option<string>): string {
    DecimalString(now) + "-" + DecimalString(rnd) + SafeExtension(filename)
  }

  /** The generated name uses nothing of the client's file name beyond its safe extension. */
  lemma GeneratedNameUsesOnlyExtension(now: nat, rnd: nat, f1: Option<string>, f2: Option<string>)
    requires SafeExtension(f1) == SafeExtension(f2)
    ensures GeneratedName(now, rnd, f1) == GeneratedName(now, rnd, f2)
  {
  }

  /** The generated name ends with the safe extension, and what precedes it holds no '.'. */
  lemma GeneratedNameShape(now: nat, rnd: nat, filename: Option<string>)
    ensures var name := GeneratedName(now, rnd, filename);
      var ext := SafeExtension(filename);
      |name| >= |ext| && name[|name| - |ext|..] == ext && '.' !in name[..|name| - |ext|]
  {
    var name := GeneratedName(now, rnd, filename);
    var ext := SafeExtension(filename);
    var head := DecimalString(now) + "-" + DecimalString(rnd);
    assert name == head + ext;
    assert name[..|name| - |ext|] == head;
    assert forall i :: 0 <= i < |head| ==> head[i] != '.';
  }

  /**
   * The unvalidated upload: the content type's multipart boundary (as the
   * multipart library extracts it) must be non-empty and a part must be
   * present; the first part is then stored, whatever its type and size,
   * under a generated name, with its declared type or
   * 'application/octet-stream'.
   */
  function UploadUnvalidated(blobs: map<string, Blob>, containerUrl: string, boundary: string, parts: seq<Part>, now: nat, rnd: nat): (o: StorageOutcome)
    ensures o.response.status in {200, 400}
    ensures o.response.status == 400 ==> o.blobs == blobs
    ensures boundary == "" ==> o.response == Fail(400, "Missing or invalid content-type boundary")
    ensures boundary != "" && parts == [] ==> o.response == Fail(400, "No file found in upload")
    ensures o.response.status == 200 <==> boundary != "" && parts != []
    ensures o.response.status == 200 ==>
      var name := GeneratedName(now, rnd, parts[0].filename);
      o.blobs == blobs[name := Blob(parts[0].size, OrElse(parts[0].mimeType, "application/octet-stream"))] &&
      o.response == Response(200, FileStored(BlobUrl(containerUrl, name), name, None))
  {
    if boundary == "" then StorageOutcome(blobs, Fail(400, "Missing or invalid content-type boundary"))
    else if parts == [] then StorageOutcome(blobs, Fail(400, "No file found in upload"))
    else
      var file := parts[0];
      var name := GeneratedName(now, rnd, file.filename);
      StorageOutcome(blobs[name := Blob(file.size, OrElse(file.mimeType, "application/octet-stream"))],
                     Response(200, FileStored(BlobUrl(containerUrl, name), name, None)))
  }

  /** Whatever the validated upload stores, the unvalidated one stores too (under another name); not conversely. */
  lemma UnvalidatedAcceptsMore(blobs: map<string, Blob>, containerUrl: string, contentType: Option<string>, boundary: string, parts: seq<Part>, now: nat, rnd: nat)
    requires boundary != ""
    ensures UploadValidated(blobs, containerUrl, contentType, parts, now).response.status == 200 ==>
      UploadUnvalidated(blobs, containerUrl, boundary, parts, now, rnd).response.status == 200
    ensures parts != [] && parts[0].size > MaxUploadSize ==>
      UploadValidated(blobs, containerUrl, contentType, parts, now).response.status == 400 &&
      UploadUnvalidated(blobs, containerUrl, boundary, parts, now, rnd).response.status == 200
  {
  }

  /** deleteIfExists: 200 whether or not the blob was there, and no other blob is touched. */
  function DeleteBlob(blobs: map<string, Blob>, fileName: string): (o: StorageOutcome)
    ensures o.response == Response(200, Message("File deleted successfully"))
    ensures fileName !in o.blobs && forall n :: n != fileName ==> (n in o.blobs <==> n in blobs)
    ensures forall n :: n in o.blobs ==> o.blobs[n] == blobs[n]
  {
    StorageOutcome(blobs - {fileName}, Response(200, Message("File deleted successfully")))
  }

  /**
   * Deletion of a URL-encoded name: the route parameter (or '') goes
   * through `decode`, the decodeURIComponent of the runtime, whose
   * failure (a malformed escape) ends in 500; an empty decoded name is
   * refused with 400.
   */
  function DeleteEncodedBlob(blobs: map<string, Blob>, param: Option<string>, decode: string -> Option<string>): (o: StorageOutcome)
    ensures var d := decode(OrElse(param, ""));
      (d.None? ==> o == StorageOutcome(blobs, Fail(500, "Failed to delete file"))) &&
      (d == Some("") ==> o == StorageOutcome(blobs, Fail(400, "fileName is required"))) &&
      (d.Some? && d.value != "" ==> o == DeleteBlob(blobs, d.value))
  {
    match decode(OrElse(param, ""))
    case None => StorageOutcome(blobs, Fail(500, "Failed to delete file"))
    case Some(name) =>
      if name == "" then StorageOutcome(blobs, Fail(400, "fileName is required"))
      else DeleteBlob(blobs, name)
  }

  /**
   * A request without a name is refused with 400 and touches no blob:
   * decodeURIComponent of '' is ''.
   */
  lemma MissingNameRefused(blobs: map<string, Blob>, param: Option<string>, decode: string -> Option<string>)
    requires decode("") == Some("")
    requires param.None? || param == Some("")
    ensures DeleteEncodedBlob(blobs, param, decode) == StorageOutcome(blobs, Fail(400, "fileName is required"))
  {
  }

  /** Deleting twice leaves the same blobs as deleting once. */
  lemma DeleteBlobIdempotent(blobs: map<string, Blob>, fileName: string)
    ensures DeleteBlob(DeleteBlob(blobs, fileName).blobs, fileName) == DeleteBlob(blobs, fileName)
  {
  }
}
