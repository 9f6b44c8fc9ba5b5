# tsla52week in Dafny

tsla52week is a small Next.js site that shows Tesla's 52-week high and low
price on a meme image. This project models its core decision logic and
proves properties about it:

- **Price aggregation.** The site asks Alpha Vantage for its monthly series.
  `pages/api/update-price.ts` takes the first twelve months, drops every month
  that fails validation, and returns the greatest high and the least low,
  stamped with the time. `pages/api/fetch-and-cache-price-data.ts` is the older
  version and does no checking.
- **Image memoiser.** The price an image shows is written into its blob file
  name as `tesla-prices-<Base64 of the JSON>.png`. `pages/api/upload-blob.ts`
  reads the price back from the newest blob's name. It reuses the newest image
  only when that name decodes to the same high and low and the blob has a URL.
  Otherwise it uploads a new image.
- **Latest-image lookup.** `pages/api/get-latest-blob.ts` returns the URL of
  the newest blob, or `null`.
- **Price endpoint.** `pages/api/get-price.ts` returns the stored record, or
  fixed defaults. Every path carries the same cache header.
- **The page.** In `pages/index.tsx`, the state hooks change in response to
  fetch, draw, effect and upload events. A four-hour staleness gate decides
  whether to upload, and a six-way chain picks what is displayed.
- **Environment check.** `config/env.ts` reports missing required variables,
  does a guarded lookup, and reads the debug flag.

## Modules

| module | file | what it holds |
|---|---|---|
| `Wrappers` | `wrappers.dfy` | `Option`, `Result`, `Outcome`, and `Truthy`, which is string truthiness |
| `Strings` | `strings.dfy` | JavaScript `split` with a non-empty separator, and `join` |
| `Bytes` | `bytes.dfy` | Conversions of values below 64 between integers and bytes |
| `Base64` | `base64.dfy` | The encoding of section 4 of RFC 4648, with a strict decoder |
| `Price` | `price.dfy` | The price records, and `Math.max` / `Math.min` of a non-empty list |
| `Http` | `http.dfy` | The JSON response shapes of the blob handlers |
| `Env` | `env.dfy` | `config/env.ts` |
| `UpdatePrice` | `update_price.dfy` | `pages/api/update-price.ts` |
| `FetchAndCache` | `fetch_and_cache.dfy` | `pages/api/fetch-and-cache-price-data.ts` |
| `BlobStore` | `blob_store.dfy` | The blob listing, and its newest-first selection, which both blob handlers use |
| `UploadBlob` | `upload_blob.dfy` | `pages/api/upload-blob.ts` |
| `GetLatestBlob` | `get_latest_blob.dfy` | `pages/api/get-latest-blob.ts` |
| `GetPrice` | `get_price.dfy` | `pages/api/get-price.ts` |
| `HomePage` | `home_page.dfy` | `pages/index.tsx`: the transition functions, a `Home` class whose fields are the hooks, and the render |

### Parameters

Library calls, I/O and the clock become parameters:

- `Date.now()` is an `int` argument (`now`).
- The `fetch`, `axios.get`, `kv.get`, `list` and `put` calls become either result datatypes or function arguments. Examples are `ApiResponse`, `LegacyResponse`, `KvRead`, `Listing`, `StoredImageResponse`, `UploadResponse`, and `put: (string, string) -> Option<string>`.
- `parseFloat` in the newer handler has the type `string -> Option<real>`, where `None` stands for NaN. In the older handler it is `string -> real`.
- `JSON.stringify` followed by UTF-8 is a function `HighLow -> seq<byte>`. UTF-8 decoding followed by `JSON.parse` is a function `seq<byte> -> Option<LastPrice>`.
- The page's canvas availability is an argument of each drawing event: whether the canvas is mounted and whether it yields a 2D context. So are the PNG bytes.

Prices are only compared, so they are `real`.

Handlers that work step by step are methods. Most are tied by their `ensures` to a specification function: `UpdatePrice.FetchPriceData` to `UpdatePrice.Outcome`, `UploadBlob.Handler` to `UploadBlob.Outcome`, and the `HomePage.Home` methods to `HomePage.Step`. The lemmas state the properties of those functions. Two handlers have no specification function:
- `GetLatestBlob.GetLatestTeslaImage` is a method whose `ensures` list its cases directly.
- `GetPrice.Handler` is pure, so it is a function with its own `ensures`.

## Model

| member | source | states |
|---|---|---|
| `Strings.JoinSplit` | pages/api/upload-blob.ts:31-34 | Joining the pieces of a split with the separator gives the string back |
| `Strings.SplitJoin` | config/env.ts:19 | Splitting a join gives the pieces back, when no piece holds the separator's first character |
| `Strings.SplitAfterPrefix` | pages/api/upload-blob.ts:31 | The first separator found in `a + sep + b` is the one right after `a`, when `a` holds none of its first character |
| `Strings.SplitWithoutSeparator` | pages/api/upload-blob.ts:34 | A string that does not contain the separator's first character splits into itself alone |
| `Base64.DecodeEncode` | pages/api/upload-blob.ts:56-58 | Decoding the Base64 text of any byte string gives those bytes |
| `Base64.EncodeDecode` | pages/api/upload-blob.ts:37 | Text that decodes is exactly the encoding of what it decodes to, so accepted text is canonical |
| `Base64.SextetsRoundTrip` | pages/api/upload-blob.ts:56-58 | The 6-bit groups of any byte string convert back to the same bytes |
| `Base64.SextetsReverse` | pages/api/upload-blob.ts:37 | A list of 6-bit values that converts to bytes is the grouping of those bytes |
| `Base64.ToSextets` | pages/api/upload-blob.ts:56-58 | The number of 6-bit values is fixed by the byte count: four for each full group of three bytes, and two or three for a final one or two bytes |
| `Base64.FromSextets` | pages/api/upload-blob.ts:37 | A list of 6-bit values that converts to bytes has exactly the length that bytes of that count group into |
| `Base64.CharsRoundTrip` | pages/api/upload-blob.ts:56-58 | Each 6-bit value's alphabet character reads back as that value |
| `Base64.PaddingCompletesGroup` | pages/api/upload-blob.ts:56-58 | The padding fills the last group to four characters: `==` after two values, `=` after three |
| `Base64.EncodeAlphabet` | pages/api/upload-blob.ts:56-58 | Encoded text contains only alphabet characters and `=`, so it contains neither `-` nor `.` |
| `Price.Max` | pages/api/update-price.ts:112 | The maximum is an element of the list, and no element exceeds it |
| `Price.Min` | pages/api/update-price.ts:113 | The minimum is an element of the list, and no element is below it |
| `Env.Missing` | config/env.ts:13-15 | A name is in the missing list iff it is required and not set (absent or empty) |
| `Env.ValidateEnvironmentVariables` | config/env.ts:7-22 | Validation passes iff both the API key and the blob token are set |
| `Env.MissingInOrder` | config/env.ts:8-15 | The missing list keeps the order of the required list, API key first |
| `Env.MessageNamesMissing` | config/env.ts:17-20 | On failure, the message is the fixed prefix followed by text that splits on `", "` into exactly the missing names |
| `Env.BothMissingMessage` | config/env.ts:17-20 | With both variables unset, the message is the prefix, then the API key name, `", "`, and the token name |
| `Env.GetEnvVar` | config/env.ts:24-30 | The lookup succeeds iff the variable is set, and then gives its value. Otherwise it fails with "Environment variable <key> is not defined" |
| `Env.DebugNeverRequired` | config/env.ts:8-11 | The debug variable is not required, and its value never changes the outcome of validation |
| `Env.ValidatedKeyReadable` | config/env.ts:7-30 | After a successful validation, the API key lookup succeeds with the key's value |
| `Env.DebugModeExact` | config/env.ts:32 | Debug mode is on iff the variable is exactly `true` |
| `UpdatePrice.FirstMonths` | pages/api/update-price.ts:58-59 | The months inspected are a prefix of the series, at most twelve of them: exactly twelve when the series has that many, and the whole series when it is shorter |
| `UpdatePrice.Accepted` | pages/api/update-price.ts:60-68 | Accepted months are no more than the months inspected, and each has high >= low > 0 |
| `UpdatePrice.ExtractPrices` | pages/api/update-price.ts:54-76 | Extraction fails, with the parse message, iff no month is accepted. Otherwise the two lists are the accepted highs and lows, paired index by index: non-empty, at most twelve, each high >= its low > 0 |
| `UpdatePrice.AcceptedExactly` | pages/api/update-price.ts:61-68 | A pair is among the accepted prices iff some inspected month passes validation with those values |
| `UpdatePrice.RejectionShortens` | pages/api/update-price.ts:65-68 | A rejected month is dropped, not replaced, so fewer prices than months are collected |
| `UpdatePrice.LaterMonthsIgnored` | pages/api/update-price.ts:58-59 | Months after the twelfth never affect the accepted prices |
| `UpdatePrice.GetApiKey` | pages/api/update-price.ts:35-37 | The key lookup succeeds iff the API key variable is set, and then returns its value |
| `UpdatePrice.ApiUrlParameters` | pages/api/update-price.ts:44-46 | The URL is the base URL, `?`, and three parameters joined by `&`: function, then `symbol=TSLA`, then the API key last. For a key without `&`, splitting on `&` gives back exactly those three |
| `UpdatePrice.Range` | pages/api/update-price.ts:111-115 | The high is one of the accepted highs and no accepted high exceeds it. The low is one of the accepted lows and no accepted low is below it. `lastUpdated` is the time given |
| `UpdatePrice.HighAtLeastLow` | pages/api/update-price.ts:112-113 | The range never inverts: its high is at least its low |
| `UpdatePrice.FetchPriceData` | pages/api/update-price.ts:85-124 | The result is the spec outcome. Every failure (missing key, response not ok, missing series, nothing accepted) is the single generic "Failed to fetch price data from Alpha Vantage". A success has high >= low > 0 and is stamped with `now` |
| `FetchAndCache.LegacyRange` | pages/api/fetch-and-cache-price-data.ts:27-30 | The high is one month's parsed high and no month's exceeds it. The low is one month's parsed low and none is below it. There is no timestamp |
| `FetchAndCache.FetchPriceData` | pages/api/fetch-and-cache-price-data.ts:3-35 | `null` iff the request fails or the series is missing. An empty-series range iff the series is empty. Otherwise the range of the first twelve months, every one of them counted |
| `FetchAndCache.AllValidAccepted` | pages/api/fetch-and-cache-price-data.ts:16-25 | When every month passes the newer validation, the newer handler collects exactly the lists the older handler collects |
| `FetchAndCache.AgreesWhenAllValid` | pages/api/fetch-and-cache-price-data.ts:27-30 | On such a series, the two handlers agree on the high and the low |
| `FetchAndCache.KeepsInvertedMonth` | pages/api/fetch-and-cache-price-data.ts:16-25 | The older handler keeps a month whose high is below its low, and can give an inverted range. The newer one rejects that month |
| `BlobStore.NewestIndex` | pages/api/upload-blob.ts:22-25 | The chosen position holds a blob that no listed blob is newer than, and every blob listed before it is strictly older. This is the first of the newest, as a stable descending sort puts first |
| `BlobStore.Newest` | pages/api/upload-blob.ts:22-25 | There is no latest blob iff the listing is empty. Otherwise the latest blob is listed, and no listed blob is newer |
| `BlobStore.NewestUnique` | pages/api/get-latest-blob.ts:45-48 | Only one position has both properties of the newest |
| `BlobStore.NewestStep` | pages/api/get-latest-blob.ts:45-47 | One more blob becomes the newest only if it is strictly newer than the newest so far |
| `BlobStore.NewerBlobWins` | pages/api/upload-blob.ts:22-25 | A blob newer than every other, placed anywhere in the listing, is the latest |
| `BlobStore.LatestBlob` | pages/api/get-latest-blob.ts:45-48 | The pass over the listing finds exactly the latest blob that sort-then-take-first gives |
| `UploadBlob.UnchangedExactly` | pages/api/upload-blob.ts:46-49 | The price is unchanged iff there is a previous price with the same high and the same low. No other field is compared |
| `UploadBlob.PayloadRoundTrip` | pages/api/upload-blob.ts:31-35 | For a non-empty payload without `-` or `.`, the name `tesla-prices-<payload>.png` splits back to exactly that payload |
| `UploadBlob.EncodeNonEmpty` | pages/api/upload-blob.ts:56-58 | Encoding non-empty bytes gives a non-empty payload, so the empty-payload check never rejects the handler's own names |
| `UploadBlob.PriceRoundTrip` | pages/api/upload-blob.ts:28-49 | The price written into a file name is decoded back from it, and so counts as unchanged. This holds whenever JSON parses back what it printed |
| `UploadBlob.Handler` | pages/api/upload-blob.ts:5-75 | The response and the storage calls are the spec outcome. A method other than POST gives 405 and makes no storage call. A failed listing gives 500 after the listing only. Every 500 carries "Failed to upload image" |
| `UploadBlob.ReuseAfterUpload` | pages/api/upload-blob.ts:51-53 | Once an image for a price is the newest blob, a request with the same price returns its URL, without `isNewUpload`, and lists but does not upload |
| `UploadBlob.ReuseWhenUnchanged` | pages/api/upload-blob.ts:51-53 | When the newest blob has a URL and its name decodes to the same high and low, the response is 200 with that URL, and nothing is put, whoever wrote the name |
| `UploadBlob.ChangedPriceUploads` | pages/api/upload-blob.ts:56-74 | A changed price, or a newest blob without a URL, is put under `tesla-prices-<payload>.png`. The response is 200 with the new URL and `isNewUpload` iff the put succeeds, and a failed put gives 500 "Failed to upload image" |
| `GetLatestBlob.MostRecentImageUrl` | pages/api/get-latest-blob.ts:48 | The URL is present iff there is a latest blob and its URL is non-empty, and then it is that URL |
| `GetLatestBlob.GetLatestTeslaImage` | pages/api/get-latest-blob.ts:27-57 | Any method other than GET gives 405 "Method not allowed". A listing failure gives 500 "Failed to fetch image". Otherwise the response is 200 with the newest blob's URL, and `null` iff the listing is empty or that URL is empty |
| `GetLatestBlob.ReturnedUrlIsNewest` | pages/api/get-latest-blob.ts:45-48 | A returned URL belongs to a listed blob that no listed blob is newer than |
| `GetPrice.Handler` | pages/api/get-price.ts:20-60 | Every path carries the same cache header. A stored record is returned unchanged. Otherwise the response is high 358.64, low 138.8, stamped with `now`. No path is an error |
| `GetPrice.DefaultsOrdered` | pages/api/get-price.ts:15-18 | The default high is above the default low, which is positive |
| `GetPrice.FailureLikeMissing` | pages/api/get-price.ts:44-58 | A failed read and a missing record give the same response |
| `HomePage.InitialInv` | pages/index.tsx:63-80 | The initial state keeps the page invariant. The page shows the hidden canvas in debug mode and is loading otherwise |
| `HomePage.DataUrlNonEmpty` | pages/index.tsx:195 | A drawn data URL is never empty |
| `HomePage.UpdateCanvasKeeps` | pages/index.tsx:161-197 | Drawing keeps the invariant, and never removes the price or resets readiness |
| `HomePage.BackgroundLoadedKeeps` | pages/index.tsx:183-187 | The background's `onload` keeps the invariant, and never removes the price or resets readiness |
| `HomePage.StoredImageKeeps` | pages/index.tsx:87-101 | Ending the stored-image fetch keeps the invariant, and never removes the price or resets readiness |
| `HomePage.UploadKeeps` | pages/index.tsx:232-259 | An upload attempt keeps the invariant, and never removes the price or resets readiness |
| `HomePage.StepInv` | pages/index.tsx:87-321 | Every event keeps the invariant. No event removes the price, resets readiness, or changes the debug flag |
| `HomePage.RunInv` | pages/index.tsx:87-321 | Any sequence of events keeps the invariant. Once set, the price stays set and readiness stays true |
| `HomePage.ContentReadyExactly` | pages/index.tsx:208-210 | After the effect, readiness holds iff it held before, or both a drawn image and a price are present. No other field changes |
| `HomePage.StoredImageOutcome` | pages/index.tsx:87-101 | The fetch always ends idle. A failure only sets the load-error flag. A truthy URL received is stored, and an empty one changes nothing else. Price and drawn image are untouched |
| `HomePage.PricesOutcome` | pages/index.tsx:107-119 | Nothing changes in debug mode or on a failure. Otherwise the price received is set |
| `HomePage.CanvasOutcome` | pages/index.tsx:161-197 | Drawing changes nothing without a canvas or without a price. Without a 2D context, the page shows "Failed to get canvas context". With one and no cached background, the page shows "Drawing" while it waits. With the background cached, drawing finishes: the image URL is the canvas's data URL, and loading ends. In each case only the loading state and the image URL can change: the stored URL, the load-error flag, readiness and the price stay as they were |
| `HomePage.ThrottleNeverSkips` | pages/index.tsx:213-222 | Once the clock is past one second, the throttle never holds back an update, even for calls a millisecond apart |
| `HomePage.UploadRequestOf` | pages/index.tsx:234-247 | A request is sent iff the upload gate holds. It carries the drawn image and only the high and the low |
| `HomePage.StalenessGate` | pages/index.tsx:237 | The four-hour gate is strict: a price exactly 14,400,000 ms old does not upload, and one a millisecond older does |
| `HomePage.DebugNeverUploads` | pages/index.tsx:234 | A debug page sends no upload request and changes nothing |
| `HomePage.UploadOutcome` | pages/index.tsx:239-255 | An upload attempt can change only the stored URL. An ok response with a truthy URL to a request that was sent stores that URL; every other attempt leaves the state unchanged |
| `HomePage.DefaultPriceIsFresh` | pages/index.tsx:237 | A default price from the price endpoint is stamped when served, so the page does not upload it for four hours |
| `HomePage.ViewPriority` | pages/index.tsx:286-321 | Each view shows exactly when its own condition holds and no earlier one does. Loading iff there is no price. Drawing iff there is a price and drawing is underway. The error iff, past those, an error is set, and it shows that error. The stored image iff, past those, a stored URL is set and has not failed to load. The live image iff, past those, an image is drawn. The hidden canvas otherwise. Each image view shows the URL its condition names |
| `HomePage.ReadyShowsImage` | pages/index.tsx:286-321 | Once the page is ready and idle, it shows an image: the stored one or the live one |
| `HomePage.StoredImageFallback` | pages/index.tsx:304-318 | When the shown stored image fails to load, the page falls back to the drawn image |
| `HomePage.DataUrlDecodes` | pages/index.tsx:195 | The drawn URL is the PNG data-URL prefix followed by text that decodes to the PNG bytes |
| `HomePage.CanvasMountedAsWritten` | pages/index.tsx:319-320 | As written, the canvas element is absent while "Drawing" shows. It exists only when there is a price, nothing is loading, and no image has been drawn |
| `HomePage.DrawStallsAsWritten` | pages/index.tsx:179-189 | As written, starting the first drawing shows "Drawing" and unmounts the canvas. The background's redraw then finds no canvas, and loading ends with no image drawn |
| `HomePage.DrawCompletesCorrected` | pages/index.tsx:179-196 | With the canvas kept mounted, the same two events draw the image, and the page shows it |
| `HomePage.Home.constructor` | pages/index.tsx:63-80 | A new component holds the initial state, which keeps the invariant |
| `HomePage.Home.BeginFetchLatestStoredImage` | pages/index.tsx:88 | Marks the page as loading with no error. The new state is the step function's successor, and keeps the invariant |
| `HomePage.Home.FinishFetchLatestStoredImage` | pages/index.tsx:89-100 | Applies the end of the stored-image fetch, as the step function does, and keeps the invariant |
| `HomePage.Home.FetchCurrentPrices` | pages/index.tsx:107-119 | Applies the price fetch, as the step function does, and keeps the invariant |
| `HomePage.Home.UpdateCanvasContent` | pages/index.tsx:161-197 | Applies a drawing, as the step function does, and keeps the invariant |
| `HomePage.Home.BackgroundImageLoaded` | pages/index.tsx:183-187 | Caches the background, draws again and ends loading, as the step function does. Keeps the invariant |
| `HomePage.Home.ContentReadyEffect` | pages/index.tsx:208-210 | Applies the readiness effect, as the step function does, and keeps the invariant |
| `HomePage.Home.ThrottledUpdateCanvas` | pages/index.tsx:213-222 | Applies the throttled update, as the step function does, and keeps the invariant |
| `HomePage.Home.UploadCanvasImage` | pages/index.tsx:232-259 | Returns exactly the request the gate allows, and applies the upload attempt as the step function does. Keeps the invariant |
| `HomePage.Home.StoredImageFailedToLoad` | pages/index.tsx:310 | Sets the load-error flag, as the step function does, and keeps the invariant |
| `HomePage.Home.Render` | pages/index.tsx:286-321 | The component's render, stated over its fields. Each view shows exactly when its own condition holds and no earlier one does. Loading iff there is no price. Drawing iff there is a price and drawing is underway. The error iff, past those, an error is set, and it shows that error. The stored image iff, past those, a stored URL is set and has not failed to load. The live image iff, past those, an image is drawn. The hidden canvas otherwise. Each image view shows the URL its condition names |

The definitions that model source functions without an `ensures` of their own are covered by the rows of the lemmas about them:
- `Base64.Encode` by `Base64.DecodeEncode`, `Base64.PaddingCompletesGroup` and `Base64.EncodeAlphabet`.
- `Base64.Decode` by `Base64.DecodeEncode` and `Base64.EncodeDecode`.
- `UpdatePrice.Validated` by `UpdatePrice.AcceptedExactly`.
- `UpdatePrice.BuildApiUrl` by `UpdatePrice.ApiUrlParameters`.
- `UpdatePrice.Outcome` by `UpdatePrice.FetchPriceData`, `UpdatePrice.Range` and `UpdatePrice.HighAtLeastLow`.
- `FetchAndCache.KeyText` by `FetchAndCache.FetchPriceData`.
- `Env.IsDebugMode` by `Env.DebugModeExact`.
- `UploadBlob.PayloadOf` and `UploadBlob.DecodePathname` by `UploadBlob.PayloadRoundTrip` and `UploadBlob.PriceRoundTrip`.
- `UploadBlob.IsPriceChanged` by `UploadBlob.UnchangedExactly`.
- `UploadBlob.Outcome` by `UploadBlob.Handler`, `UploadBlob.ReuseWhenUnchanged`, `UploadBlob.ReuseAfterUpload` and `UploadBlob.ChangedPriceUploads`.
- `UploadBlob.PathnameFor` by `UploadBlob.PayloadRoundTrip`.
- `UploadBlob.PriceString` by `UploadBlob.EncodeNonEmpty` and `UploadBlob.PriceRoundTrip`.
- `UploadBlob.LastPriceOf` by `UploadBlob.PriceRoundTrip` and `UploadBlob.ReuseWhenUnchanged`.
- `GetPrice.Defaults`, `GetPrice.DefaultHigh` and `GetPrice.DefaultLow` by `GetPrice.Handler` and `GetPrice.DefaultsOrdered`.
- `HomePage.Initial` by `HomePage.InitialInv`.
- `HomePage.DataUrl` by `HomePage.DataUrlNonEmpty` and `HomePage.DataUrlDecodes`.
- `HomePage.Run` by `HomePage.RunInv`.
- `HomePage.Step` by `HomePage.StepInv`, `HomePage.RunInv` and the `HomePage.Home` methods.
- `HomePage.UpdateCanvas` by `HomePage.CanvasOutcome` and `HomePage.UpdateCanvasKeeps`.
- `HomePage.OnBackgroundLoaded` by `HomePage.BackgroundLoadedKeeps`.
- `HomePage.OnStoredImage` by `HomePage.StoredImageOutcome`.
- `HomePage.OnPrices` by `HomePage.PricesOutcome`.
- `HomePage.OnContentReadyCheck` by `HomePage.ContentReadyExactly`.
- `HomePage.OnThrottled` by `HomePage.ThrottleNeverSkips`.
- `HomePage.OnUpload` by `HomePage.UploadOutcome`.
- `HomePage.ShouldUpload` by `HomePage.UploadRequestOf`, `HomePage.StalenessGate` and `HomePage.DebugNeverUploads`.
- `HomePage.ViewOf` by `HomePage.ViewPriority`.

## Left out

- React scheduling is not modelled: effect ordering, batching of state updates, `useCallback` memoisation and stale closures. Each awaited step, effect run and image callback is one event applied to the current state, in an order the caller chooses.
- Whether the `<canvas>` element is mounted is an argument of each drawing event. `CanvasMountedAsWritten` ties it to the view the page shows.
- Canvas drawing is not modelled: the background image `/bg.png`, the text, its font and positions (`1540 / 1.78`, `1540 / 1.2`), `toFixed(2)`, and the canvas size. This is presentation work. The PNG bytes of `toDataURL` are an argument of the drawing events.
- The network and storage calls are inputs, not modelled behaviour: `fetch`, `axios.get`, `kv.get`, and the blob `list` and `put`, including the `tesla-` prefix filter, `limit: 10` and the access token. Fetching the data URL and turning it into a blob is part of `put`.
- The random suffix Vercel may add to a put pathname is not modelled. The names are taken as given.
- BlobStore.LatestBlob: the in-place `blobs.sort` is replaced by one read-only pass that finds the element the stable descending sort puts first. The listing is not used after `[0]`, so the reorder itself is not modelled.
- Floating point is not modelled: NaN, infinities, and the rounding of `parseFloat`. The newer handler's `parseFloat` gives `None` for NaN. The older one's is total.
- FetchAndCache.FetchPriceData: `Math.max()` and `Math.min()` of an empty series give `-Infinity` and `Infinity`, modelled as the separate `EmptyRange` result.
- FetchAndCache.KeyText: in the older handler, a missing API key is sent as the text `undefined`, which is exactly what the template literal produces. Its web request is otherwise unchecked.
- `JSON.stringify`, `JSON.parse` and UTF-8 are function arguments. The round-trip lemmas assume, as a precondition, that parsing gives back what was printed.
- `UploadBlob.DecodePathname` uses the strict decoder that sections 3.3 and 3.5 of RFC 4648 allow: it rejects characters outside the alphabet (section 3.3) and non-zero pad bits (section 3.5). Node's `Buffer.from(…, "base64")` skips invalid characters instead of rejecting them. Names the handler writes decode the same way under both decoders. A hand-made name with stray characters may decode differently.
- UploadBlob.Handler: the request's `priceData` is taken as its high and low only. The source stringifies the whole `priceData` object into the blob name, so any other fields a request body carried would be written into the name too. The page sends only `high` and `low`.
- UploadBlob.Handler: failures of `req.body` destructuring, of `response.blob()` and of the JSON encoder are folded into the `put` argument, or are not modelled.
- The `isNewUpload` flag is the `NewUploadBody` response shape.
- Console logging is left out, along with the text of the errors that `fetchPriceData` throws internally and then replaces with the generic message.
- `pages/api/og.tsx` is not part of this model. It is image rendering, and its newest-blob choice repeats the one of `pages/api/get-latest-blob.ts`.
- `pages/api/tsla-price.ts` is not part of this model. It imports a function the price module does not export.
- `pages/_app.tsx`, `next.config.ts` and `types/next-image.d.ts` are not part of this model. They hold no logic.

## Findings

| source | as written | input that shows it | evidently intended | confidence | as-written member | corrected member |
|---|---|---|---|---|---|---|
| pages/index.tsx:179-189 | The `<canvas>` is rendered only in the last branch of the view chain (line 320). Starting a drawing without the cached background sets `isLoading`, so the page switches to "Drawing" and the canvas leaves the page. When the background's `onload` redraws, `canvasRef.current` is `null`, so nothing is drawn. Loading then ends with no image | A page with a price, no stored image (or one that failed to load) and no cached background: a drawing event, then the background's load event | The canvas stays mounted, hidden, whatever view is shown, so the redraw in `onload` finds it and sets the image URL | medium: depends on React clearing the ref of the unmounted canvas before `onload` fires; not executed | `HomePage.DrawStallsAsWritten` (with `HomePage.CanvasMountedAsWritten`) | `HomePage.DrawCompletesCorrected` (with the definition `HomePage.CanvasMountedCorrected`) |
