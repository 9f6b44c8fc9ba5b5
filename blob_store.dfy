/** The blob listing both blob handlers read, and the choice of the latest
    blob. The handlers sort the listing by `uploadedAt`, newest first, and take
    the first element; the sort is stable, so among blobs uploaded at the same
    instant the one listed first wins. The model finds that element with one
    pass over the listing instead of reordering it. */
module BlobStore {
  import opened Wrappers

  /** A listed blob; `uploadedAt` in milliseconds since the epoch. */
  datatype Blob = Blob(url: string, pathname: string, uploadedAt: int)

  /** What `list({ prefix: "tesla-" })` gives: a failure, or the blobs. */
  datatype Listing = ListFailed | Listed(blobs: seq<Blob>)

  /** The position of the latest blob: no blob is newer, and every blob
      listed before it is strictly older. */
  function NewestIndex(blobs: seq<Blob>): (k: nat)
    requires |blobs| > 0
    ensures k < |blobs|
    ensures forall j :: 0 <= j < |blobs| ==> blobs[j].uploadedAt <= blobs[k].uploadedAt
    ensures forall j :: 0 <= j < k ==> blobs[j].uploadedAt < blobs[k].uploadedAt
    decreases |blobs|
  {
    if |blobs| == 1 then 0
    else
      var k := NewestIndex(blobs[..|blobs| - 1]);
      if blobs[|blobs| - 1].uploadedAt > blobs[k].uploadedAt then |blobs| - 1 else k
  }

  /** `blobs.sort(newest first)[0]`, `undefined` for an empty listing. */
  function Newest(blobs: seq<Blob>): (latest: Option<Blob>)
    ensures latest.None? <==> blobs == []
    ensures latest.Some? ==> latest.value in blobs
    ensures latest.Some? ==> forall j :: 0 <= j < |blobs| ==> blobs[j].uploadedAt <= latest.value.uploadedAt
  {
    if blobs == [] then None else Some(blobs[NewestIndex(blobs)])
  }

  /** Only one position has both properties of `NewestIndex`. */
  lemma NewestUnique(blobs: seq<Blob>, k: nat)
    requires 0 < |blobs| && k < |blobs|
    requires forall j :: 0 <= j < |blobs| ==> blobs[j].uploadedAt <= blobs[k].uploadedAt
    requires forall j :: 0 <= j < k ==> blobs[j].uploadedAt < blobs[k].uploadedAt
    ensures k == NewestIndex(blobs)
  {
  }

  /** A blob newer than every listed one becomes the latest when added at any
      position. */
  lemma NewerBlobWins(before: seq<Blob>, b: Blob, after: seq<Blob>)
    requires forall j :: 0 <= j < |before| ==> before[j].uploadedAt < b.uploadedAt
    requires forall j :: 0 <= j < |after| ==> after[j].uploadedAt < b.uploadedAt
    ensures Newest(before + [b] + after) == Some(b)
  {
    var blobs := before + [b] + after;
    assert blobs[|before|] == b;
    assert forall j :: 0 <= j < |blobs| && j != |before| ==> blobs[j].uploadedAt < b.uploadedAt by {
      forall j | 0 <= j < |blobs| && j != |before|
        ensures blobs[j].uploadedAt < b.uploadedAt
      {
        if j < |before| {
          assert blobs[j] == before[j];
        } else {
          assert blobs[j] == after[j - |before| - 1];
        }
      }
    }
    NewestUnique(blobs, |before|);
  }

  /** One more blob of the listing: it becomes the latest only when it is
      strictly newer than the latest so far. */
  lemma NewestStep(blobs: seq<Blob>, i: nat)
    requires 1 <= i < |blobs|
    ensures var k := NewestIndex(blobs[..i]);
      k < i && NewestIndex(blobs[..i + 1]) == if blobs[i].uploadedAt > blobs[k].uploadedAt then i else k
  {
    var prefix := blobs[..i + 1];
    assert prefix[..i] == blobs[..i];
    assert prefix[i] == blobs[i];
  }

  /** The pass over the listing that the sort-and-take-first amounts to. */
  method LatestBlob(blobs: seq<Blob>) returns (latest: Option<Blob>)
    ensures latest == Newest(blobs)
  {
    if |blobs| == 0 {
      return None;
    }
    var k := 0;
    var i := 1;
    while i < |blobs|
      invariant 1 <= i <= |blobs| && k < i
      invariant k == NewestIndex(blobs[..i])
    {
      NewestStep(blobs, i);
      if blobs[i].uploadedAt > blobs[k].uploadedAt {
        k := i;
      }
      i := i + 1;
    }
    assert blobs[..i] == blobs;
    return Some(blobs[k]);
  }
}
