/** The latest-image lookup of `pages/api/get-latest-blob.ts`: only `GET`
    proceeds; the URL of the newest listed blob is returned, or `null` when the
    listing is empty or that URL is empty. */
module GetLatestBlob {
  import opened Wrappers
  import opened Http
  import BlobStore

  const FetchFailedMessage := "Failed to fetch image"

  /** `sortedBlobs[0]?.url || null`. */
  function MostRecentImageUrl(latest: Option<BlobStore.Blob>): (url: Option<string>)
    ensures url.Some? <==> latest.Some? && latest.value.url != ""
    ensures url.Some? ==> url.value == latest.value.url
  {
    if latest.Some? && latest.value.url != "" then Some(latest.value.url) else None
  }

  /** `getLatestTeslaImage`. */
  method GetLatestTeslaImage(httpMethod: string, listing: BlobStore.Listing) returns (response: Response)
    ensures httpMethod != "GET" ==> response == NotAllowed()
    ensures httpMethod == "GET" && listing.ListFailed? ==>
      response == Response(500, ErrorBody(FetchFailedMessage))
    ensures httpMethod == "GET" && listing.Listed? ==>
      var blobs := listing.blobs;
      response.status == 200 && response.body.UrlBody? &&
      (response.body.url.None? <==> blobs == [] || blobs[BlobStore.NewestIndex(blobs)].url == "") &&
      (response.body.url.Some? ==> response.body.url.value == blobs[BlobStore.NewestIndex(blobs)].url)
  {
    if httpMethod != "GET" {
      return NotAllowed();
    }
    if listing.ListFailed? {
      return Response(500, ErrorBody(FetchFailedMessage));
    }
    var latest := BlobStore.LatestBlob(listing.blobs);
    return Response(200, UrlBody(MostRecentImageUrl(latest)));
  }

  /** The URL returned belongs to a listed blob that no other listed blob is
      newer than. */
  lemma ReturnedUrlIsNewest(blobs: seq<BlobStore.Blob>)
    requires MostRecentImageUrl(BlobStore.Newest(blobs)).Some?
    ensures exists k :: (
      0 <= k < |blobs| &&
      blobs[k].url == MostRecentImageUrl(BlobStore.Newest(blobs)).value &&
      forall j :: 0 <= j < |blobs| ==> blobs[j].uploadedAt <= blobs[k].uploadedAt)
  {
    var k := BlobStore.NewestIndex(blobs);
    assert blobs[k].url == MostRecentImageUrl(BlobStore.Newest(blobs)).value;
  }
}
