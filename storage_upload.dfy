/**
 * backend/functions/storage-upload/index.js: the unvalidated blob upload
 * under a generated name. `boundary` is what the multipart library
 * extracts from the Content-Type header ('' when it finds none).
 */
module StorageUploadFn {
  import opened Wrappers
  import opened JsText
  import opened Http
  import opened Blobs
  import opened StorageEndpoints

  method Handle(store: Container, boundary: string, parts: seq<Part>, now: nat, rnd: nat) returns (r: Response)
    modifies store
    ensures StorageOutcome(store.blobs, r) == UploadUnvalidated(old(store.blobs), store.url, boundary, parts, now, rnd)
  {
    if boundary == "" {
      return Fail(400, "Missing or invalid content-type boundary");
    }
    if |parts| == 0 {
      return Fail(400, "No file found in upload");
    }
    var file := parts[0];
    var uniqueName := GeneratedName(now, rnd, file.filename);
    var imageUrl := store.Upload(uniqueName, Blob(file.size, OrElse(file.mimeType, "application/octet-stream")));
    r := Response(200, FileStored(imageUrl, uniqueName, None));
  }
}
