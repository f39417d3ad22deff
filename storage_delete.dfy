/**
 * backend/functions/storage-delete/index.js: blob deletion by a
 * URL-encoded route name. `decode` stands for decodeURIComponent: None
 * where it throws on a malformed escape.
 */
module StorageDeleteFn {
  import opened Wrappers
  import opened JsText
  import opened Http
  import opened Blobs
  import opened StorageEndpoints

  method Handle(store: Container, param: Option<string>, decode: string -> Option<string>) returns (r: Response)
    modifies store
    ensures StorageOutcome(store.blobs, r) == DeleteEncodedBlob(old(store.blobs), param, decode)
  {
    var decoded := decode(OrElse(param, ""));
    if decoded.None? {
      return Fail(500, "Failed to delete file");
    }
    var fileName := decoded.value;
    if fileName == "" {
      return Fail(400, "fileName is required");
    }
    store.DeleteIfExists(fileName);
    r := Response(200, Message("File deleted successfully"));
  }
}
