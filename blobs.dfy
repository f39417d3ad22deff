/**
 * The blob container the storage handlers write to (utils/storage.js):
 * a map from blob name to the stored bytes' length and content type.
 */
module Blobs {

  datatype Blob = Blob(size: nat, contentType: string)

  /** The URL under which blob `name` of the container at `containerUrl` is served. */
  function BlobUrl(containerUrl: string, name: string): (r: string)
    ensures |r| == |containerUrl| + 1 + |name| && r[..|containerUrl|] == containerUrl
    ensures r[|containerUrl| + 1..] == name
  {
    containerUrl + "/" + name
  }

  class Container {
    /** The container's URL. */
    const url: string
    var blobs: map<string, Blob>

    constructor (url: string)
      ensures this.url == url && blobs == map[]
    {
      this.url := url;
      blobs := map[];
    }

    /** uploadPhoto: stores the bytes under `name`, replacing any blob of that name, and returns its URL. */
    method Upload(name: string, b: Blob) returns (blobUrl: string)
      modifies this
      ensures blobs == old(blobs)[name := b]
      ensures blobUrl == BlobUrl(url, name)
    {
      blobs := blobs[name := b];
      blobUrl := BlobUrl(url, name);
    }

    /** deletePhoto: deleteIfExists, which succeeds whether or not the blob is there. */
    method DeleteIfExists(name: string)
      modifies this
      ensures blobs == old(blobs) - {name}
    {
      blobs := blobs - {name};
    }
  }
}
