/** backend/functions/uploadToStorage/index.js: the validated blob upload. */
module UploadToStorageFn {
  import opened Wrappers
  import opened JsText
  import opened Http
  import opened Blobs
  import opened StorageEndpoints

  method Handle(store: Container, contentType: Option<string>, parts: seq<Part>, now: nat) returns (r: Response)
    modifies store
    ensures StorageOutcome(store.blobs, r) == UploadValidated(old(store.blobs), store.url, contentType, parts, now)
  {
    if contentType.None? || !Includes(contentType.value, "multipart/form-data") {
      return Fail(400, "Content-Type must be multipart/form-data");
    }
    if |parts| == 0 {
      return Fail(400, "No file uploaded");
    }
    var filePart := parts[0];
    var fileName := StampedName(now, filePart.filename);
    var mimeType := filePart.mimeType;
    if !AllowedType(mimeType) {
      return Fail(400, "Invalid file type. Only JPEG, PNG, and WebP are allowed.");
    }
    if filePart.size > MaxUploadSize {
      return Fail(400, "File size exceeds 10MB limit");
    }
    var imageUrl := store.Upload(fileName, Blob(filePart.size, mimeType.value));
    r := Response(200, FileStored(imageUrl, fileName, Some("File uploaded successfully")));
  }
}
