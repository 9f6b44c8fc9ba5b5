/** The page of `pages/index.tsx`. Its state is a record of six React state
    hooks and the cached background image. The handlers change that record one
    event at a time, and the render picks one view from it.

    React scheduling is not modelled: each awaited step, effect run and image
    callback is one event, applied to the current state in whatever order the
    environment chooses. Whether the `<canvas>` element is mounted and whether
    it yields a 2D context are inputs of the drawing events, and so are the
    PNG bytes of the finished drawing. */
module HomePage {
  import opened Wrappers
  import opened Price
  import Base64
  import GetPrice

  const UpdateInterval: int := 4 * 60 * 60 * 1000
  const ThrottleDelay: int := 1000
  const CanvasContextError := "Failed to get canvas context"
  const DataUrlPrefix := "data:image/png;base64,"
  const DebugHigh: real := 389.49
  const DebugLow: real := 138.8
  const DebugAge: int := 8 * 60 * 60 * 1000

  datatype LoadingState = LoadingState(isLoading: bool, error: Option<string>)

  const Idle := LoadingState(false, None)
  const Busy := LoadingState(true, None)

  /** The component's state: the hooks, and whether `bgImageRef` holds the
      loaded background. */
  datatype PageState = PageState(
    isDebug: bool,
    priceData: Option<PriceData>,
    canvasImageUrl: Option<string>,
    storedImageUrl: Option<string>,
    hasImageLoadError: bool,
    loadingState: LoadingState,
    isContentReady: bool,
    backgroundLoaded: bool)

  /** What `fetch("/api/get-latest-blob")` gives: a failure (network error,
      response not ok, body not JSON), or the body's `url`. */
  datatype StoredImageResponse = StoredImageFailed | StoredImageBody(url: Option<string>)

  /** What `fetch("/api/upload-blob", …)` gives: a failure, or the response's
      `ok` and the body's `url`. */
  datatype UploadResponse = UploadFailed | UploadBody(ok: bool, url: Option<string>)

  /** The body of the upload request. */
  datatype UploadRequest = UploadRequest(dataUrl: string, priceData: HighLow)

  /** One thing that happens to the page. */
  datatype Event =
    | StoredImageRequested                                   // `fetchLatestStoredImage`, up to its `await`
    | StoredImageAnswered(stored: StoredImageResponse)       // … and after it
    | PricesAnswered(prices: Option<PriceData>)              // `fetchCurrentPrices`; `None` for a failure
    | CanvasUpdate(canvasMounted: bool, hasContext: bool, png: seq<Base64.byte>)
    | BackgroundLoaded(canvasMounted: bool, hasContext: bool, png: seq<Base64.byte>)
    | ContentReadyCheck                                      // the `isContentReady` effect
    | ThrottledCanvasUpdate(now: int, canvasMounted: bool, hasContext: bool, png: seq<Base64.byte>)
    | UploadAttempt(now: int, upload: UploadResponse)        // `uploadCanvasImage`
    | StoredImageLoadFailed                                  // the stored `<Image>`'s `onError`

  /** What the page shows, in the order of the render's conditions. */
  datatype View =
    | LoadingView
    | DrawingView
    | ErrorView(message: string)
    | StoredImageView(url: string)
    | LiveImageView(url: string)
    | HiddenCanvasView

  // ---------------------------------------------------------------------------
  // Transitions

  /** The state of a fresh page: in debug mode the price is the built-in debug
      record, eight hours old. */
  function Initial(isDebug: bool, now: int): PageState {
    PageState(isDebug,
      if isDebug then Some(PriceData(DebugHigh, DebugLow, now - DebugAge)) else None,
      None, None, false, Idle, false, false)
  }

  /** `canvas.toDataURL("image/png")`. */
  function DataUrl(png: seq<Base64.byte>): string {
    DataUrlPrefix + Base64.Encode(png)
  }

  /** `updateCanvasContent`: nothing without a canvas or a price; an error
      without a 2D context; otherwise drawing starts, and either waits for the
      background image to load or finishes at once with the canvas's data URL. */
  function UpdateCanvas(s: PageState, canvasMounted: bool, hasContext: bool, png: seq<Base64.byte>): PageState {
    if !canvasMounted || s.priceData.None? then s
    else if !hasContext then s.(loadingState := LoadingState(false, Some(CanvasContextError)))
    else if !s.backgroundLoaded then s.(loadingState := Busy)
    else s.(canvasImageUrl := Some(DataUrl(png)), loadingState := Idle)
  }

  /** The background's `onload`: cache the image, draw again, and end the
      loading state. */
  function OnBackgroundLoaded(s: PageState, canvasMounted: bool, hasContext: bool, png: seq<Base64.byte>): PageState {
    UpdateCanvas(s.(backgroundLoaded := true), canvasMounted, hasContext, png).(loadingState := Idle)
  }

  /** The end of `fetchLatestStoredImage`: a truthy URL is kept, a failure
      marks the image as failed, and loading always ends without error. */
  function OnStoredImage(s: PageState, r: StoredImageResponse): PageState {
    var t := match r
      case StoredImageFailed => s.(hasImageLoadError := true)
      case StoredImageBody(url) => if Truthy(url) then s.(storedImageUrl := url) else s;
    t.(loadingState := Idle)
  }

  /** `fetchCurrentPrices`: nothing in debug mode or on failure. */
  function OnPrices(s: PageState, r: Option<PriceData>): PageState {
    if s.isDebug || r.None? then s else s.(priceData := r)
  }

  /** The `isContentReady` effect. */
  function OnContentReadyCheck(s: PageState): PageState {
    if Truthy(s.canvasImageUrl) && s.priceData.Some? then s.(isContentReady := true) else s
  }

  /** `throttledUpdateCanvas`: `lastCall` starts at 0 on every call, so the
      update runs whenever `now - 0 >= 1000`. */
  function OnThrottled(s: PageState, now: int, canvasMounted: bool, hasContext: bool, png: seq<Base64.byte>): PageState {
    var lastCall := 0;
    if now - lastCall >= ThrottleDelay then UpdateCanvas(s, canvasMounted, hasContext, png) else s
  }

  /** The guard of `uploadCanvasImage`: not in debug mode, content ready, a
      price and a drawn image present, and the price more than four hours
      old. */
  predicate ShouldUpload(s: PageState, now: int) {
    !s.isDebug && s.isContentReady && s.priceData.Some? && Truthy(s.canvasImageUrl) &&
    now - s.priceData.value.lastUpdated > UpdateInterval
  }

  /** The request `uploadCanvasImage` sends, if any: the drawn image and the
      high and low only. */
  function UploadRequestOf(s: PageState, now: int): (req: Option<UploadRequest>)
    ensures req.Some? <==> ShouldUpload(s, now)
    ensures req.Some? ==> req.value.dataUrl == s.canvasImageUrl.value
    ensures req.Some? ==> req.value.priceData == HighLow(s.priceData.value.high, s.priceData.value.low)
  {
    if ShouldUpload(s, now) then
      Some(UploadRequest(s.canvasImageUrl.value, HighLow(s.priceData.value.high, s.priceData.value.low)))
    else None
  }

  /** `uploadCanvasImage`: the stored URL changes only on an ok response with
      a truthy URL. */
  function OnUpload(s: PageState, now: int, r: UploadResponse): PageState {
    if !ShouldUpload(s, now) then s
    else if r.UploadBody? && r.ok && Truthy(r.url) then s.(storedImageUrl := r.url)
    else s
  }

  function Step(s: PageState, e: Event): PageState {
    match e
    case StoredImageRequested => s.(loadingState := Busy)
    case StoredImageAnswered(r) => OnStoredImage(s, r)
    case PricesAnswered(r) => OnPrices(s, r)
    case CanvasUpdate(mounted, ctx, png) => UpdateCanvas(s, mounted, ctx, png)
    case BackgroundLoaded(mounted, ctx, png) => OnBackgroundLoaded(s, mounted, ctx, png)
    case ContentReadyCheck => OnContentReadyCheck(s)
    case ThrottledCanvasUpdate(now, mounted, ctx, png) => OnThrottled(s, now, mounted, ctx, png)
    case UploadAttempt(now, r) => OnUpload(s, now, r)
    case StoredImageLoadFailed => s.(hasImageLoadError := true)
  }

  function Run(s: PageState, events: seq<Event>): PageState
    decreases |events|
  {
    if events == [] then s else Run(Step(s, events[0]), events[1..])
  }

  // ---------------------------------------------------------------------------
  // The render

  /** The render's chain of conditions. */
  function ViewOf(s: PageState): View {
    if s.priceData.None? then LoadingView
    else if s.loadingState.isLoading then DrawingView
    else if Truthy(s.loadingState.error) then ErrorView(s.loadingState.error.value)
    else if Truthy(s.storedImageUrl) && !s.hasImageLoadError then StoredImageView(s.storedImageUrl.value)
    else if s.priceData.Some? && Truthy(s.canvasImageUrl) then LiveImageView(s.canvasImageUrl.value)
    else HiddenCanvasView
  }

  // ---------------------------------------------------------------------------
  // Invariants

  /** What every reachable state satisfies: readiness implies a price and a
      drawn image; an image is drawn only with a price; the URLs kept are
      non-empty; the only error is the canvas-context one; a debug page always
      has its price. */
  predicate Inv(s: PageState) {
    (s.isContentReady ==> s.priceData.Some? && s.canvasImageUrl.Some?) &&
    (s.canvasImageUrl.Some? ==> s.priceData.Some? && s.canvasImageUrl.value != "") &&
    (s.storedImageUrl.Some? ==> s.storedImageUrl.value != "") &&
    (s.loadingState.error.Some? ==> s.loadingState.error.value == CanvasContextError) &&
    (s.isDebug ==> s.priceData.Some?)
  }

  lemma InitialInv(isDebug: bool, now: int)
    ensures Inv(Initial(isDebug, now))
    ensures ViewOf(Initial(isDebug, now)) == (if isDebug then HiddenCanvasView else LoadingView)
  {
  }

  /** A data URL is never empty. */
  lemma DataUrlNonEmpty(png: seq<Base64.byte>)
    ensures DataUrl(png) != ""
  {
    assert |DataUrl(png)| >= |DataUrlPrefix|;
  }

  /** A step from `s` to `t` keeps the invariant, never takes the price away
      and never resets readiness. */
  predicate Keeps(s: PageState, t: PageState) {
    Inv(t) && (s.priceData.Some? ==> t.priceData.Some?) &&
    (s.isContentReady ==> t.isContentReady) && t.isDebug == s.isDebug
  }

  lemma UpdateCanvasKeeps(s: PageState, canvasMounted: bool, hasContext: bool, png: seq<Base64.byte>)
    requires Inv(s)
    ensures Keeps(s, UpdateCanvas(s, canvasMounted, hasContext, png))
  {
    DataUrlNonEmpty(png);
  }

  lemma BackgroundLoadedKeeps(s: PageState, canvasMounted: bool, hasContext: bool, png: seq<Base64.byte>)
    requires Inv(s)
    ensures Keeps(s, OnBackgroundLoaded(s, canvasMounted, hasContext, png))
  {
    UpdateCanvasKeeps(s.(backgroundLoaded := true), canvasMounted, hasContext, png);
  }

  lemma StoredImageKeeps(s: PageState, r: StoredImageResponse)
    requires Inv(s)
    ensures Keeps(s, OnStoredImage(s, r))
  {
  }

  lemma UploadKeeps(s: PageState, now: int, r: UploadResponse)
    requires Inv(s)
    ensures Keeps(s, OnUpload(s, now, r))
  {
  }

  /** Every event keeps the invariant, never takes the price away and never
      resets readiness. */
  lemma StepInv(s: PageState, e: Event)
    requires Inv(s)
    ensures Keeps(s, Step(s, e))
  {
    match e
    case StoredImageAnswered(r) => StoredImageKeeps(s, r);
    case CanvasUpdate(mounted, ctx, png) => UpdateCanvasKeeps(s, mounted, ctx, png);
    case BackgroundLoaded(mounted, ctx, png) => BackgroundLoadedKeeps(s, mounted, ctx, png);
    case ThrottledCanvasUpdate(_, mounted, ctx, png) => UpdateCanvasKeeps(s, mounted, ctx, png);
    case UploadAttempt(now, r) => UploadKeeps(s, now, r);
    case _ =>
  }

  /** The same over any sequence of events. */
  lemma {:induction false} RunInv(s: PageState, events: seq<Event>)
    requires Inv(s)
    ensures Inv(Run(s, events))
    ensures s.priceData.Some? ==> Run(s, events).priceData.Some?
    ensures s.isContentReady ==> Run(s, events).isContentReady
    decreases |events|
  {
    if events != [] {
      StepInv(s, events[0]);
      RunInv(Step(s, events[0]), events[1..]);
    }
  }

  /** Readiness is set exactly when a drawn image and a price are both
      present, or was set before; nothing else changes. */
  lemma ContentReadyExactly(s: PageState)
    requires Inv(s)
    ensures OnContentReadyCheck(s).isContentReady <==>
      s.isContentReady || (s.canvasImageUrl.Some? && s.priceData.Some?)
    ensures OnContentReadyCheck(s) ==
      s.(isContentReady := s.isContentReady || (Truthy(s.canvasImageUrl) && s.priceData.Some?))
  {
  }

  // ---------------------------------------------------------------------------
  // Properties of the handlers

  /** The stored-image fetch always ends idle; a failure marks the image as
      failed; a truthy URL received is stored, and the stored URL changes to
      nothing else. Each kind of response gives the whole new state. */
  lemma StoredImageOutcome(s: PageState, r: StoredImageResponse)
    ensures OnStoredImage(s, r).loadingState == Idle
    ensures r.StoredImageFailed? ==> OnStoredImage(s, r).hasImageLoadError
    ensures OnStoredImage(s, r).storedImageUrl != s.storedImageUrl ==>
      r.StoredImageBody? && Truthy(r.url) && OnStoredImage(s, r).storedImageUrl == r.url
    ensures OnStoredImage(s, r).priceData == s.priceData && OnStoredImage(s, r).canvasImageUrl == s.canvasImageUrl
    ensures r.StoredImageBody? && Truthy(r.url) ==> OnStoredImage(s, r).storedImageUrl == r.url
    ensures r.StoredImageFailed? ==>
      OnStoredImage(s, r) == s.(hasImageLoadError := true, loadingState := Idle)
    ensures r.StoredImageBody? && Truthy(r.url) ==>
      OnStoredImage(s, r) == s.(storedImageUrl := r.url, loadingState := Idle)
    ensures r.StoredImageBody? && !Truthy(r.url) ==>
      OnStoredImage(s, r) == s.(loadingState := Idle)
  {
  }

  /** A price fetch changes nothing in debug mode or on failure, and otherwise
      sets the price received. */
  lemma PricesOutcome(s: PageState, r: Option<PriceData>)
    ensures s.isDebug || r.None? ==> OnPrices(s, r) == s
    ensures !s.isDebug && r.Some? ==> OnPrices(s, r) == s.(priceData := r)
  {
  }

  /** Drawing without a 2D context shows the context error; drawing with it
      either waits for the background or finishes with the data URL. */
  lemma CanvasOutcome(s: PageState, hasContext: bool, png: seq<Base64.byte>)
    ensures UpdateCanvas(s, false, hasContext, png) == s
    ensures s.priceData.None? ==> UpdateCanvas(s, true, hasContext, png) == s
    ensures s.priceData.Some? && !hasContext ==>
      ViewOf(UpdateCanvas(s, true, hasContext, png)) == ErrorView(CanvasContextError)
    ensures s.priceData.Some? && hasContext && !s.backgroundLoaded ==>
      ViewOf(UpdateCanvas(s, true, hasContext, png)) == DrawingView
    ensures s.priceData.Some? && hasContext && s.backgroundLoaded ==>
      (UpdateCanvas(s, true, hasContext, png).canvasImageUrl == Some(DataUrl(png)) &&
       UpdateCanvas(s, true, hasContext, png).loadingState == Idle)
    ensures s.priceData.Some? && !hasContext ==>
      UpdateCanvas(s, true, hasContext, png) == s.(loadingState := LoadingState(false, Some(CanvasContextError)))
    ensures s.priceData.Some? && hasContext && !s.backgroundLoaded ==>
      UpdateCanvas(s, true, hasContext, png) == s.(loadingState := Busy)
    ensures s.priceData.Some? && hasContext && s.backgroundLoaded ==>
      UpdateCanvas(s, true, hasContext, png) == s.(canvasImageUrl := Some(DataUrl(png)), loadingState := Idle)
  {
  }

  /** The throttle never holds an update back once the clock is past one
      second, however close together the calls are. */
  lemma ThrottleNeverSkips(s: PageState, now: int, canvasMounted: bool, hasContext: bool, png: seq<Base64.byte>)
    requires now >= ThrottleDelay
    ensures OnThrottled(s, now, canvasMounted, hasContext, png) == UpdateCanvas(s, canvasMounted, hasContext, png)
    ensures var t := OnThrottled(s, now, canvasMounted, hasContext, png);
      OnThrottled(t, now + 1, canvasMounted, hasContext, png) == UpdateCanvas(t, canvasMounted, hasContext, png)
  {
  }

  /** The four-hour gate is strict: a price exactly four hours old is not
      uploaded, one a millisecond older is, when the rest of the guard holds. */
  lemma StalenessGate(s: PageState)
    requires !s.isDebug && s.isContentReady && s.priceData.Some? && Truthy(s.canvasImageUrl)
    ensures !ShouldUpload(s, s.priceData.value.lastUpdated + 14400000)
    ensures ShouldUpload(s, s.priceData.value.lastUpdated + 14400001)
  {
  }

  /** A debug page never uploads. */
  lemma DebugNeverUploads(s: PageState, now: int, r: UploadResponse)
    requires s.isDebug
    ensures UploadRequestOf(s, now).None? && OnUpload(s, now, r) == s
  {
  }

  /** An upload attempt changes the stored URL only: an ok response with a
      truthy URL to a request actually sent stores that URL, and every other
      attempt leaves the state as it was. */
  lemma UploadOutcome(s: PageState, now: int, r: UploadResponse)
    ensures OnUpload(s, now, r) == s.(storedImageUrl := OnUpload(s, now, r).storedImageUrl)
    ensures OnUpload(s, now, r).storedImageUrl != s.storedImageUrl ==>
      UploadRequestOf(s, now).Some? && r.UploadBody? && r.ok && Truthy(r.url) &&
      OnUpload(s, now, r).storedImageUrl == r.url
    ensures ShouldUpload(s, now) && r.UploadBody? && r.ok && Truthy(r.url) ==>
      OnUpload(s, now, r) == s.(storedImageUrl := r.url)
    ensures !(ShouldUpload(s, now) && r.UploadBody? && r.ok && Truthy(r.url)) ==>
      OnUpload(s, now, r) == s
  {
  }

  /** A price served from the defaults of the price endpoint is stamped with
      the time it was served, so the page does not upload for four hours
      after. */
  lemma DefaultPriceIsFresh(s: PageState, served: int, now: int)
    requires s.priceData == Some(GetPrice.Handler(GetPrice.KvValue(None), served).data)
    requires now <= served + UpdateInterval
    ensures !ShouldUpload(s, now)
  {
  }

  // ---------------------------------------------------------------------------
  // Properties of the render

  /** The order of the views: loading while there is no price; then drawing;
      then the error; then the stored image while it has not failed to load;
      then the live image; the hidden canvas last. Each view shows exactly
      when its own condition holds and no earlier one does. */
  lemma ViewPriority(s: PageState)
    ensures ViewOf(s) == LoadingView <==> s.priceData.None?
    ensures ViewOf(s) == DrawingView <==> s.priceData.Some? && s.loadingState.isLoading
    ensures ViewOf(s).ErrorView? <==>
      s.priceData.Some? && !s.loadingState.isLoading && Truthy(s.loadingState.error)
    ensures ViewOf(s).StoredImageView? <==>
      (s.priceData.Some? && !s.loadingState.isLoading && !Truthy(s.loadingState.error) &&
       Truthy(s.storedImageUrl) && !s.hasImageLoadError)
    ensures ViewOf(s).LiveImageView? <==>
      (s.priceData.Some? && !s.loadingState.isLoading && !Truthy(s.loadingState.error) &&
       !(Truthy(s.storedImageUrl) && !s.hasImageLoadError) && Truthy(s.canvasImageUrl))
    ensures ViewOf(s) == HiddenCanvasView <==>
      (s.priceData.Some? && !s.loadingState.isLoading && !Truthy(s.loadingState.error) &&
       !(Truthy(s.storedImageUrl) && !s.hasImageLoadError) && !Truthy(s.canvasImageUrl))
    ensures ViewOf(s).ErrorView? ==> s.loadingState.error == Some(ViewOf(s).message)
    ensures ViewOf(s).StoredImageView? ==> s.storedImageUrl == Some(ViewOf(s).url)
    ensures ViewOf(s).LiveImageView? ==> s.canvasImageUrl == Some(ViewOf(s).url)
  {
  }

  /** Once the content is ready and nothing is loading or failing, the page
      shows an image: the stored one, or the live one. */
  lemma ReadyShowsImage(s: PageState)
    requires Inv(s) && s.isContentReady && s.loadingState == Idle
    ensures ViewOf(s).StoredImageView? || ViewOf(s).LiveImageView?
  {
  }

  /** When the stored image fails to load, the page falls back to the live
      image if one is drawn. */
  lemma StoredImageFallback(s: PageState)
    requires Inv(s) && ViewOf(s).StoredImageView? && s.canvasImageUrl.Some?
    ensures ViewOf(Step(s, StoredImageLoadFailed)) == LiveImageView(s.canvasImageUrl.value)
  {
  }

  /** The live image is the drawing as a PNG data URL: its text after the
      prefix decodes to the PNG bytes. */
  lemma DataUrlDecodes(png: seq<Base64.byte>)
    ensures var url := DataUrl(png);
      |url| >= |DataUrlPrefix| && url[..|DataUrlPrefix|] == DataUrlPrefix &&
      Base64.Decode(url[|DataUrlPrefix|..]) == Some(png)
  {
    var url := DataUrl(png);
    assert url[|DataUrlPrefix|..] == Base64.Encode(png);
    Base64.DecodeEncode(png);
  }

  // ---------------------------------------------------------------------------
  // Where the canvas lives

  /** As written, the `<canvas>` element is rendered only in the last branch
      of the view chain, so `canvasRef.current` is set only while that view
      shows. */
  function CanvasMountedAsWritten(s: PageState): (mounted: bool)
    ensures ViewOf(s) == DrawingView ==> !mounted
    ensures mounted ==> s.priceData.Some? && !s.loadingState.isLoading && !Truthy(s.canvasImageUrl)
  {
    ViewOf(s).HiddenCanvasView?
  }

  /** As evidently intended, the canvas stays mounted (hidden) whatever the
      view, so the drawing can finish while the page shows "Drawing". */
  function CanvasMountedCorrected(s: PageState): bool {
    true
  }

  /** A page ready to draw: a price, no image drawn yet, nothing loading or
      failing, no stored image to show, the background not yet loaded. */
  predicate ReadyToDraw(s: PageState) {
    s.priceData.Some? && s.canvasImageUrl.None? && s.loadingState == Idle &&
    !(Truthy(s.storedImageUrl) && !s.hasImageLoadError) && !s.backgroundLoaded
  }

  /** As written, the first drawing never completes: starting it shows
      "Drawing", which unmounts the canvas, so when the background arrives the
      redraw finds no canvas; loading ends with no image drawn and the hidden
      canvas showing. */
  lemma DrawStallsAsWritten(s: PageState, png: seq<Base64.byte>)
    requires ReadyToDraw(s)
    ensures var t1 := Step(s, CanvasUpdate(CanvasMountedAsWritten(s), true, png));
      var t2 := Step(t1, BackgroundLoaded(CanvasMountedAsWritten(t1), true, png));
      ViewOf(t1) == DrawingView && t2.backgroundLoaded && t2.canvasImageUrl.None? &&
      ViewOf(t2) == HiddenCanvasView
  {
  }

  /** With the canvas kept mounted, the same two events draw the image, and
      the page shows it. */
  lemma DrawCompletesCorrected(s: PageState, png: seq<Base64.byte>)
    requires ReadyToDraw(s)
    ensures var t1 := Step(s, CanvasUpdate(CanvasMountedCorrected(s), true, png));
      var t2 := Step(t1, BackgroundLoaded(CanvasMountedCorrected(t1), true, png));
      ViewOf(t1) == DrawingView && t2.canvasImageUrl == Some(DataUrl(png)) &&
      ViewOf(t2) == LiveImageView(DataUrl(png))
  {
    DataUrlNonEmpty(png);
  }

  // ---------------------------------------------------------------------------
  // The component

  /** The component instance, its hooks as fields. Each handler applies one
      event. */
  class Home {
    const isDebug: bool
    var priceData: Option<PriceData>
    var canvasImageUrl: Option<string>
    var storedImageUrl: Option<string>
    var hasImageLoadError: bool
    var loadingState: LoadingState
    var isContentReady: bool
    var backgroundLoaded: bool

    function State(): PageState
      reads this
    {
      PageState(isDebug, priceData, canvasImageUrl, storedImageUrl, hasImageLoadError,
                loadingState, isContentReady, backgroundLoaded)
    }

    ghost predicate Valid()
      reads this
    {
      Inv(State())
    }

    constructor (debug: bool, now: int)
      ensures State() == Initial(debug, now) && Valid()
    {
      isDebug := debug;
      priceData := if debug then Some(PriceData(DebugHigh, DebugLow, now - DebugAge)) else None;
      canvasImageUrl := None;
      storedImageUrl := None;
      hasImageLoadError := false;
      loadingState := Idle;
      isContentReady := false;
      backgroundLoaded := false;
    }

    /** `fetchLatestStoredImage` up to its `await`. */
    method BeginFetchLatestStoredImage()
      requires Valid()
      modifies this
      ensures Valid() && State() == Step(old(State()), StoredImageRequested)
    {
      loadingState := Busy;
    }

    /** `fetchLatestStoredImage` after its `await`. */
    method FinishFetchLatestStoredImage(r: StoredImageResponse)
      requires Valid()
      modifies this
      ensures Valid() && State() == Step(old(State()), StoredImageAnswered(r))
    {
      if r.StoredImageFailed? {
        hasImageLoadError := true;
      } else if Truthy(r.url) {
        storedImageUrl := r.url;
      }
      loadingState := Idle;
    }

    /** `fetchCurrentPrices`. */
    method FetchCurrentPrices(r: Option<PriceData>)
      requires Valid()
      modifies this
      ensures Valid() && State() == Step(old(State()), PricesAnswered(r))
    {
      if isDebug {
        return;
      }
      if r.Some? {
        priceData := r;
      }
    }

    /** `updateCanvasContent`. */
    method UpdateCanvasContent(canvasMounted: bool, hasContext: bool, png: seq<Base64.byte>)
      requires Valid()
      modifies this
      ensures Valid() && State() == Step(old(State()), CanvasUpdate(canvasMounted, hasContext, png))
    {
      if !canvasMounted || priceData.None? {
        return;
      }
      if !hasContext {
        loadingState := LoadingState(false, Some(CanvasContextError));
        return;
      }
      loadingState := Busy;
      if !backgroundLoaded {
        return;
      }
      DataUrlNonEmpty(png);
      canvasImageUrl := Some(DataUrl(png));
      loadingState := Idle;
    }

    /** The background image's `onload`. */
    method BackgroundImageLoaded(canvasMounted: bool, hasContext: bool, png: seq<Base64.byte>)
      requires Valid()
      modifies this
      ensures Valid() && State() == Step(old(State()), BackgroundLoaded(canvasMounted, hasContext, png))
    {
      backgroundLoaded := true;
      UpdateCanvasContent(canvasMounted, hasContext, png);
      loadingState := Idle;
    }

    /** The effect that sets `isContentReady`. */
    method ContentReadyEffect()
      requires Valid()
      modifies this
      ensures Valid() && State() == Step(old(State()), ContentReadyCheck)
    {
      if Truthy(canvasImageUrl) && priceData.Some? {
        isContentReady := true;
      }
    }

    /** `throttledUpdateCanvas`. */
    method ThrottledUpdateCanvas(now: int, canvasMounted: bool, hasContext: bool, png: seq<Base64.byte>)
      requires Valid()
      modifies this
      ensures Valid() && State() == Step(old(State()), ThrottledCanvasUpdate(now, canvasMounted, hasContext, png))
    {
      var lastCall := 0;
      if now - lastCall >= ThrottleDelay {
        UpdateCanvasContent(canvasMounted, hasContext, png);
      }
    }

    /** `uploadCanvasImage`: returns the request it sends, if any. The
        response `r` is used only when a request is sent. */
    method UploadCanvasImage(now: int, r: UploadResponse) returns (request: Option<UploadRequest>)
      requires Valid()
      modifies this
      ensures Valid() && State() == Step(old(State()), UploadAttempt(now, r))
      ensures request == UploadRequestOf(old(State()), now)
    {
      if isDebug || !isContentReady || priceData.None? || !Truthy(canvasImageUrl) {
        return None;
      }
      if now - priceData.value.lastUpdated <= UpdateInterval {
        return None;
      }
      request := Some(UploadRequest(canvasImageUrl.value, HighLow(priceData.value.high, priceData.value.low)));
      if r.UploadBody? && r.ok && Truthy(r.url) {
        storedImageUrl := r.url;
      }
    }

    /** The stored image's `onError`. */
    method StoredImageFailedToLoad()
      requires Valid()
      modifies this
      ensures Valid() && State() == Step(old(State()), StoredImageLoadFailed)
    {
      hasImageLoadError := true;
    }

    /** What the page renders: the first view of the chain whose condition
        the current hooks meet. */
    function Render(): (v: View)
      reads this
      ensures v == LoadingView <==> priceData.None?
      ensures v == DrawingView <==> priceData.Some? && loadingState.isLoading
      ensures v.ErrorView? <==> priceData.Some? && !loadingState.isLoading && Truthy(loadingState.error)
      ensures v.StoredImageView? <==>
        (priceData.Some? && !loadingState.isLoading && !Truthy(loadingState.error) &&
         Truthy(storedImageUrl) && !hasImageLoadError)
      ensures v.LiveImageView? <==>
        (priceData.Some? && !loadingState.isLoading && !Truthy(loadingState.error) &&
         !(Truthy(storedImageUrl) && !hasImageLoadError) && Truthy(canvasImageUrl))
      ensures v == HiddenCanvasView <==>
        (priceData.Some? && !loadingState.isLoading && !Truthy(loadingState.error) &&
         !(Truthy(storedImageUrl) && !hasImageLoadError) && !Truthy(canvasImageUrl))
      ensures v.ErrorView? ==> loadingState.error == Some(v.message)
      ensures v.StoredImageView? ==> storedImageUrl == Some(v.url)
      ensures v.LiveImageView? ==> canvasImageUrl == Some(v.url)
    {
      ViewPriority(State());
      ViewOf(State())
    }
  }
}
