/** The rendered-image memoiser of `pages/api/upload-blob.ts`. The price a
    rendered image shows is written into the blob's file name, as
    `tesla-prices-<Base64 of the JSON of the price>.png`. On each upload
    request the handler reads the price back from the name of the latest blob,
    and uploads a new image only when the price changed.

    JSON text and its UTF-8 bytes come from library code. They are parameters
    here: `stringify` gives the bytes of `JSON.stringify(priceData)`, and
    `parse` gives what `JSON.parse` makes of decoded bytes. */
module UploadBlob {
  import opened Wrappers
  import opened Price
  import opened Http
  import Strings
  import Base64
  import BlobStore

  const NamePrefix := "tesla-prices-"
  const NameSuffix := ".png"
  const PriceMarker := "-prices-"
  const UploadFailedMessage := "Failed to upload image"

  /** A price read back from a file name, when `JSON.parse` gives a truthy
      value: each field is the number it holds, or `None` when it holds no
      number (so it differs from every price). */
  datatype LastPrice = LastPrice(high: Option<real>, low: Option<real>)

  /** The storage calls the handler makes, in order. */
  datatype Effect =
    | ListBlobs
    | PutBlob(pathname: string, dataUrl: string)

  datatype Handled = Handled(response: Response, effects: seq<Effect>)

  // ---------------------------------------------------------------------------
  // The file name

  /** `tesla-prices-${priceString}.png`. */
  function PathnameFor(payload: string): string {
    NamePrefix + payload + NameSuffix
  }

  /** `Buffer.from(JSON.stringify(priceData)).toString("base64")`. */
  function PriceString(q: HighLow, stringify: HighLow -> seq<Base64.byte>): string {
    Base64.Encode(stringify(q))
  }

  /** The Base64 text of a file name: the piece after `-prices-`, up to the
      first `.`; `None` unless the name holds `-prices-` exactly once, or when
      that text is empty. */
  function PayloadOf(pathname: string): Option<string> {
    var parts := Strings.SplitOn(pathname, PriceMarker);
    if |parts| != 2 then None
    else
      var payload := Strings.SplitOn(parts[1], ".")[0];
      if payload == "" then None else Some(payload)
  }

  /** The price written into a file name, or `None` (`null`) when the name
      carries none: no name, no payload, text that is not Base64, or a JSON
      value that fails to parse or is falsy. The decoder here is the strict
      one of RFC 4648. */
  function DecodePathname(pathname: string, parse: seq<Base64.byte> -> Option<LastPrice>): Option<LastPrice> {
    if pathname == "" then None
    else
      match PayloadOf(pathname)
      case None => None
      case Some(payload) =>
        match Base64.Decode(payload)
        case None => None
        case Some(bytes) => parse(bytes)
  }

  /** `isPriceChanged`: there is no previous price, or its high or its low
      differs. */
  predicate IsPriceChanged(last: Option<LastPrice>, q: HighLow) {
    last.None? || last.value.high != Some(q.high) || last.value.low != Some(q.low)
  }

  /** Only the high and the low are compared: the price is unchanged exactly
      when the previous one holds the same two numbers. */
  lemma UnchangedExactly(last: Option<LastPrice>, q: HighLow)
    ensures !IsPriceChanged(last, q) <==> last == Some(LastPrice(Some(q.high), Some(q.low)))
  {
  }

  /** A name built from a payload in the Base64 alphabet gives the payload
      back. */
  lemma PayloadRoundTrip(payload: string)
    requires payload != "" && '-' !in payload && '.' !in payload
    ensures PayloadOf(PathnameFor(payload)) == Some(payload)
  {
    var rest := payload + NameSuffix;
    assert PathnameFor(payload) == "tesla" + PriceMarker + rest;
    Strings.SplitAfterPrefix("tesla", PriceMarker, rest);
    assert '-' !in rest by {
      assert forall c :: c in rest ==> c in payload || c in NameSuffix;
    }
    Strings.SplitWithoutSeparator(rest, PriceMarker);
    assert Strings.SplitOn(PathnameFor(payload), PriceMarker) == ["tesla", rest];
    assert rest == payload + "." + "png";
    Strings.SplitAfterPrefix(payload, ".", "png");
  }

  /** Encoding a non-empty byte string gives non-empty text. */
  lemma EncodeNonEmpty(bytes: seq<Base64.byte>)
    requires bytes != []
    ensures Base64.Encode(bytes) != ""
  {
    assert |Base64.ToSextets(bytes)| >= 2;
  }

  /** The round trip of the memoiser: the price written into a file name is
      read back from it, so the same price is seen as unchanged. It holds for
      every JSON text that parses back to the two numbers it was made of. */
  lemma PriceRoundTrip(q: HighLow, stringify: HighLow -> seq<Base64.byte>,
                       parse: seq<Base64.byte> -> Option<LastPrice>)
    requires stringify(q) != []
    requires parse(stringify(q)) == Some(LastPrice(Some(q.high), Some(q.low)))
    ensures PayloadOf(PathnameFor(PriceString(q, stringify))) == Some(PriceString(q, stringify))
    ensures DecodePathname(PathnameFor(PriceString(q, stringify)), parse) == Some(LastPrice(Some(q.high), Some(q.low)))
    ensures !IsPriceChanged(DecodePathname(PathnameFor(PriceString(q, stringify)), parse), q)
  {
    var bytes := stringify(q);
    var payload := Base64.Encode(bytes);
    EncodeNonEmpty(bytes);
    Base64.EncodeAlphabet(bytes);
    PayloadRoundTrip(payload);
    Base64.DecodeEncode(bytes);
    assert PathnameFor(payload) != "" by {
      assert |PathnameFor(payload)| >= |NamePrefix|;
    }
  }

  // ---------------------------------------------------------------------------
  // The handler

  /** The price data of the latest blob, `null` when there is none. */
  function LastPriceOf(latest: Option<BlobStore.Blob>, parse: seq<Base64.byte> -> Option<LastPrice>): Option<LastPrice> {
    if latest.None? then None else DecodePathname(latest.value.pathname, parse)
  }

  /** What one request does. `put` stands for fetching the data URL and
      putting the image under a name: the new blob's URL, or `None` when any
      of those steps throws. */
  function Outcome(httpMethod: string, dataUrl: string, q: HighLow, listing: BlobStore.Listing,
                   stringify: HighLow -> seq<Base64.byte>, parse: seq<Base64.byte> -> Option<LastPrice>,
                   put: (string, string) -> Option<string>): Handled
  {
    if httpMethod != "POST" then Handled(NotAllowed(), [])
    else
      match listing
      case ListFailed => Handled(Response(500, ErrorBody(UploadFailedMessage)), [ListBlobs])
      case Listed(blobs) =>
        var latest := BlobStore.Newest(blobs);
        if !IsPriceChanged(LastPriceOf(latest, parse), q) && latest.Some? && latest.value.url != "" then
          Handled(Response(200, UrlBody(Some(latest.value.url))), [ListBlobs])
        else
          var name := PathnameFor(PriceString(q, stringify));
          var effects := [ListBlobs, PutBlob(name, dataUrl)];
          match put(name, dataUrl)
          case None => Handled(Response(500, ErrorBody(UploadFailedMessage)), effects)
          case Some(url) => Handled(Response(200, NewUploadBody(url)), effects)
  }

  /** The upload handler. */
  method Handler(httpMethod: string, dataUrl: string, q: HighLow, listing: BlobStore.Listing,
                 stringify: HighLow -> seq<Base64.byte>, parse: seq<Base64.byte> -> Option<LastPrice>,
                 put: (string, string) -> Option<string>)
    returns (response: Response, effects: seq<Effect>)
    ensures Handled(response, effects) == Outcome(httpMethod, dataUrl, q, listing, stringify, parse, put)
    ensures httpMethod != "POST" ==> response.status == 405 && effects == []
    ensures response.status == 500 ==> response.body == ErrorBody(UploadFailedMessage)
    ensures httpMethod == "POST" && listing.ListFailed? ==> response.status == 500 && effects == [ListBlobs]
  {
    if httpMethod != "POST" {
      return NotAllowed(), [];
    }
    if listing.ListFailed? {
      return Response(500, ErrorBody(UploadFailedMessage)), [ListBlobs];
    }
    var latest := BlobStore.LatestBlob(listing.blobs);
    var lastPriceData := LastPriceOf(latest, parse);
    if !IsPriceChanged(lastPriceData, q) && latest.Some? && latest.value.url != "" {
      return Response(200, UrlBody(Some(latest.value.url))), [ListBlobs];
    }
    var name := PathnameFor(PriceString(q, stringify));
    effects := [ListBlobs, PutBlob(name, dataUrl)];
    var uploaded := put(name, dataUrl);
    if uploaded.None? {
      response := Response(500, ErrorBody(UploadFailedMessage));
    } else {
      response := Response(200, NewUploadBody(uploaded.value));
    }
  }

  /** Memoisation: once an image for a price is the latest blob, a request
      with the same price returns that blob's URL and does not upload. */
  lemma ReuseAfterUpload(dataUrl: string, q: HighLow, older: seq<BlobStore.Blob>, url: string, at: int,
                         stringify: HighLow -> seq<Base64.byte>, parse: seq<Base64.byte> -> Option<LastPrice>,
                         put: (string, string) -> Option<string>)
    requires stringify(q) != []
    requires parse(stringify(q)) == Some(LastPrice(Some(q.high), Some(q.low)))
    requires url != ""
    requires forall j :: 0 <= j < |older| ==> older[j].uploadedAt < at
    ensures var uploaded := BlobStore.Blob(url, PathnameFor(PriceString(q, stringify)), at);
      Outcome("POST", dataUrl, q, BlobStore.Listed(older + [uploaded]), stringify, parse, put) ==
        Handled(Response(200, UrlBody(Some(url))), [ListBlobs])
  {
    var uploaded := BlobStore.Blob(url, PathnameFor(PriceString(q, stringify)), at);
    BlobStore.NewerBlobWins(older, uploaded, []);
    assert older + [uploaded] + [] == older + [uploaded];
    PriceRoundTrip(q, stringify, parse);
  }

  /** The reuse rule: when the latest blob has a URL and the price in its name
      has the same high and low, that URL is returned and nothing is put,
      whatever the blob's name was written by. */
  lemma ReuseWhenUnchanged(dataUrl: string, q: HighLow, blobs: seq<BlobStore.Blob>,
                           stringify: HighLow -> seq<Base64.byte>, parse: seq<Base64.byte> -> Option<LastPrice>,
                           put: (string, string) -> Option<string>)
    requires var l := BlobStore.Newest(blobs); l.Some? && l.value.url != "" && !IsPriceChanged(LastPriceOf(l, parse), q)
    ensures Outcome("POST", dataUrl, q, BlobStore.Listed(blobs), stringify, parse, put) ==
      Handled(Response(200, UrlBody(Some(BlobStore.Newest(blobs).value.url))), [ListBlobs])
  {
  }

  /** Every other listed case uploads: a price that differs in its high or its
      low from the one in the latest blob's name, or a latest blob without a
      URL, is put under its own name; a failed put answers 500. */
  lemma ChangedPriceUploads(dataUrl: string, q: HighLow, blobs: seq<BlobStore.Blob>,
                            stringify: HighLow -> seq<Base64.byte>, parse: seq<Base64.byte> -> Option<LastPrice>,
                            put: (string, string) -> Option<string>)
    requires IsPriceChanged(LastPriceOf(BlobStore.Newest(blobs), parse), q) || BlobStore.Newest(blobs).value.url == ""
    ensures var h := Outcome("POST", dataUrl, q, BlobStore.Listed(blobs), stringify, parse, put);
      h.effects == [ListBlobs, PutBlob(PathnameFor(PriceString(q, stringify)), dataUrl)] &&
      (h.response.status == 200 <==> put(PathnameFor(PriceString(q, stringify)), dataUrl).Some?) &&
      (h.response.status == 200 ==> h.response.body == NewUploadBody(put(PathnameFor(PriceString(q, stringify)), dataUrl).value)) &&
      (put(PathnameFor(PriceString(q, stringify)), dataUrl).None? ==> h.response == Response(500, ErrorBody(UploadFailedMessage)))
  {
  }
}
