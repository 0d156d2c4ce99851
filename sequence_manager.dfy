/**
 * The sequence manager: loads the numbered frames of an image sequence one
 * after the other into a cache, and on every `scrollUpdate` event draws
 * the cached frame the percentage selects.
 */
module Sequence {
  import opened Wrappers
  import opened JsString
  import opened Channel
  import opened ScaleFill

  /** How the browser settles one image request. */
  datatype LoadOutcome = Loaded(width: Pixels, height: Pixels) | LoadFailed

  /** A loaded frame: its URL and its natural size. */
  datatype Image = Image(src: string, width: Pixels, height: Pixels)

  /** One `drawImage` call on the canvas. */
  datatype DrawCall = DrawCall(image: Image, placement: Placement)

  // ---------------------------------------------------------------------
  // Frame naming

  /** `${baseUrl}${frameId.toString().padStart(4, "0")}.jpg`. */
  function FrameUrl(baseUrl: string, frameId: int): string {
    baseUrl + PadStart(IntToString(frameId), 4, '0') + ".jpg"
  }

  /** A frame URL starts with the base URL and ends with `.jpg`, with at least four characters between. */
  lemma FrameUrlShape(baseUrl: string, frameId: int)
    ensures var url := FrameUrl(baseUrl, frameId);
            |url| >= |baseUrl| + 8 && url[..|baseUrl|] == baseUrl && url[|url| - 4..] == ".jpg"
  {
  }

  /** Reads the frame number back out of a URL built on `baseUrl`. */
  function FrameNumber(baseUrl: string, url: string): Option<nat> {
    if |url| >= |baseUrl| + 5 && url[..|baseUrl|] == baseUrl && url[|url| - 4..] == ".jpg"
       && (forall k :: |baseUrl| <= k < |url| - 4 ==> IsDigit(url[k]))
    then
      var digits := url[|baseUrl|..|url| - 4];
      assert forall k :: 0 <= k < |digits| ==> IsDigit(digits[k]) by {
        forall k | 0 <= k < |digits| ensures IsDigit(digits[k]) {
          assert digits[k] == url[|baseUrl| + k];
        }
      }
      Some(DigitsValue(digits))
    else None
  }

  /** The padded digits used for a non-negative frame number. */
  lemma PaddedDigits(frameId: nat)
    ensures var d := PadStart(IntToString(frameId), 4, '0');
            |d| >= 4 && (forall k :: 0 <= k < |d| ==> IsDigit(d[k])) && DigitsValue(d) == frameId
  {
    var s := NatToString(frameId);
    NatToStringValue(frameId);
    if |s| < 4 {
      LeadingZerosValue(4 - |s|, s);
    }
  }

  /** A frame's number can be read back from its URL: frame URLs never collide. */
  lemma FrameUrlRoundTrip(baseUrl: string, frameId: nat)
    ensures FrameNumber(baseUrl, FrameUrl(baseUrl, frameId)) == Some(frameId)
  {
    var d := PadStart(IntToString(frameId), 4, '0');
    PaddedDigits(frameId);
    var url := FrameUrl(baseUrl, frameId);
    assert url == baseUrl + d + ".jpg";
    assert url[..|baseUrl|] == baseUrl;
    assert url[|url| - 4..] == ".jpg";
    assert url[|baseUrl|..|url| - 4] == d;
    forall k | |baseUrl| <= k < |url| - 4 ensures IsDigit(url[k]) {
      assert url[k] == d[k - |baseUrl|];
    }
  }

  lemma FrameUrlInjective(baseUrl: string, a: nat, b: nat)
    requires FrameUrl(baseUrl, a) == FrameUrl(baseUrl, b)
    ensures a == b
  {
    FrameUrlRoundTrip(baseUrl, a);
    FrameUrlRoundTrip(baseUrl, b);
  }

  /** Numbers below 10000 are padded to exactly four digits; larger ones keep all their digits. */
  lemma FrameUrlPadding(baseUrl: string, frameId: nat)
    ensures frameId < 10000 ==> |FrameUrl(baseUrl, frameId)| == |baseUrl| + 8
    ensures frameId >= 10000 ==>
              FrameUrl(baseUrl, frameId) == baseUrl + NatToString(frameId) + ".jpg" &&
              |FrameUrl(baseUrl, frameId)| > |baseUrl| + 8
  {
    NatToStringLength(frameId, 4);
    assert Pow10(4) == 10000;
  }

  lemma FrameUrlExamples(baseUrl: string, a: int, b: int)
    requires a == 7 && b == 12345
    ensures FrameUrl(baseUrl, a) == baseUrl + "0007.jpg"
    ensures FrameUrl(baseUrl, b) == baseUrl + "12345.jpg"
  {
    assert NatToString(a) == "7";
    assert NatToString(b) == "12345" by {
      assert NatToString(1) == "1";
      assert NatToString(12) == "12";
      assert NatToString(123) == "123";
      assert NatToString(1234) == "1234";
    }
    assert PadStart("7", 4, '0') == "0007";
  }

  /** The message the chain ends with when an image cannot be loaded. */
  function LoadErrorMessage(imageSrc: string): string {
    "Not able to load the image with " + imageSrc
  }

  // ---------------------------------------------------------------------
  // The load chain, as values

  /** How many frames `loadFrame` accepts: `firstFrame..lastFrame`, both ends included. */
  function Span(firstFrame: int, lastFrame: int): (n: nat)
    ensures n > 0 <==> firstFrame <= lastFrame
    ensures n > 0 ==> firstFrame + n - 1 == lastFrame
  {
    if firstFrame <= lastFrame then lastFrame - firstFrame + 1 else 0
  }

  /** The bounds guard of `loadFrame`: true when the frame is fetched. */
  predicate InRange(frameId: int, firstFrame: int, lastFrame: int) {
    !(frameId == lastFrame + 1 || frameId < firstFrame || frameId > lastFrame)
  }

  /** The `lastFrame + 1` test is already covered by `frameId > lastFrame`. */
  lemma InRangeBounds(frameId: int, firstFrame: int, lastFrame: int)
    ensures InRange(frameId, firstFrame, lastFrame) <==> firstFrame <= frameId <= lastFrame
  {
  }

  /** `firstFrame, firstFrame + 1, …`, `n` numbers. */
  function Ascending(firstFrame: int, n: nat): (r: seq<int>)
    ensures |r| == n
    ensures forall i :: 0 <= i < n ==> r[i] == firstFrame + i
  {
    seq(n, i => firstFrame + i)
  }

  /** The cache built from loaded outcomes, the `i`-th being frame `firstFrame + i`. */
  function Images(baseUrl: string, firstFrame: int, outcomes: seq<LoadOutcome>): (r: seq<Image>)
    requires forall i :: 0 <= i < |outcomes| ==> outcomes[i].Loaded?
    ensures |r| == |outcomes|
    ensures forall i :: 0 <= i < |outcomes| ==>
              r[i] == Image(FrameUrl(baseUrl, firstFrame + i), outcomes[i].width, outcomes[i].height)
  {
    seq(|outcomes|, i requires 0 <= i < |outcomes| =>
      Image(FrameUrl(baseUrl, firstFrame + i), outcomes[i].width, outcomes[i].height))
  }

  /** The number of outcomes before the first failure. */
  function LeadingLoaded(outcomes: seq<LoadOutcome>): (n: nat)
    ensures n <= |outcomes|
    ensures forall i :: 0 <= i < n ==> outcomes[i].Loaded?
    ensures n < |outcomes| ==> outcomes[n].LoadFailed?
  {
    if outcomes == [] || outcomes[0].LoadFailed? then 0
    else 1 + LeadingLoaded(outcomes[1..])
  }

  function Min(a: nat, b: nat): nat {
    if a <= b then a else b
  }

  /** Cache entry `i` is the image of frame `firstFrame + i`. */
  predicate CachedInOrder(baseUrl: string, firstFrame: int, cache: seq<Image>) {
    forall i :: 0 <= i < |cache| ==> cache[i].src == FrameUrl(baseUrl, firstFrame + i)
  }

  lemma CachedInOrderSnoc(baseUrl: string, firstFrame: int, cache: seq<Image>, image: Image)
    requires CachedInOrder(baseUrl, firstFrame, cache)
    requires image.src == FrameUrl(baseUrl, firstFrame + |cache|)
    ensures CachedInOrder(baseUrl, firstFrame, cache + [image])
  {
    var c := cache + [image];
    assert forall i :: 0 <= i < |cache| ==> c[i] == cache[i];
  }

  lemma AscendingSnoc(firstFrame: int, n: nat)
    ensures Ascending(firstFrame, n) + [firstFrame + n] == Ascending(firstFrame, n + 1)
  {
  }

  /**
   * The chain's state between two events: frames are requested in
   * ascending order from `firstFrame`; the cache holds the frames that
   * loaded, in that order; at most one request is pending, and it is for
   * the frame after the last one cached; a failure ends the chain with the
   * failed frame's message; an idle chain has not started or is complete.
   */
  predicate ChainState(baseUrl: string, firstFrame: int, lastFrame: int, requested: seq<int>,
                       cache: seq<Image>, inFlight: Option<int>, loadError: Option<string>)
  {
    var n := |cache|;
    n <= |requested| <= Span(firstFrame, lastFrame) &&
    requested == Ascending(firstFrame, |requested|) &&
    CachedInOrder(baseUrl, firstFrame, cache) &&
    (inFlight.Some? ==>
       loadError.None? && |requested| == n + 1 && inFlight.value == firstFrame + n) &&
    (loadError.Some? ==>
       |requested| == n + 1 && loadError.value == LoadErrorMessage(FrameUrl(baseUrl, firstFrame + n))) &&
    (inFlight.None? && loadError.None? ==> |requested| == n && (n == 0 || n == Span(firstFrame, lastFrame)))
  }

  /**
   * In any chain state every requested frame is in range, and a frame
   * after the first is requested only once its predecessor is cached.
   */
  lemma ChainStateOrder(baseUrl: string, firstFrame: int, lastFrame: int, requested: seq<int>,
                        cache: seq<Image>, inFlight: Option<int>, loadError: Option<string>)
    requires ChainState(baseUrl, firstFrame, lastFrame, requested, cache, inFlight, loadError)
    ensures forall k :: 0 <= k < |requested| ==> firstFrame <= requested[k] <= lastFrame
    ensures forall k :: 0 <= k < |requested| - 1 ==>
              k < |cache| && cache[k].src == FrameUrl(baseUrl, requested[k])
    ensures |requested| <= |cache| + 1
  {
    var n := |cache|;
    assert |requested| <= n + 1;
    forall k | 0 <= k < |requested|
      ensures firstFrame <= requested[k] <= lastFrame
    {
      assert requested[k] == firstFrame + k;
    }
  }

  /** The pending frame is in range. */
  lemma PendingInRange(baseUrl: string, firstFrame: int, lastFrame: int, requested: seq<int>,
                       cache: seq<Image>, frameId: int)
    requires ChainState(baseUrl, firstFrame, lastFrame, requested, cache, Some(frameId), None)
    ensures firstFrame <= frameId <= lastFrame && frameId == firstFrame + |cache|
  {
  }

  /** A load of the pending frame, not the last, caches it and requests the next one. */
  lemma ChainAfterLoad(baseUrl: string, firstFrame: int, lastFrame: int, requested: seq<int>,
                       cache: seq<Image>, frameId: int, image: Image)
    requires ChainState(baseUrl, firstFrame, lastFrame, requested, cache, Some(frameId), None)
    requires image.src == FrameUrl(baseUrl, frameId) && frameId < lastFrame
    ensures ChainState(baseUrl, firstFrame, lastFrame, requested + [frameId + 1], cache + [image],
                       Some(frameId + 1), None)
  {
    CachedInOrderSnoc(baseUrl, firstFrame, cache, image);
    AscendingSnoc(firstFrame, |requested|);
  }

  /** A load of the last frame caches it and completes the chain. */
  lemma ChainAfterLastLoad(baseUrl: string, firstFrame: int, lastFrame: int, requested: seq<int>,
                           cache: seq<Image>, frameId: int, image: Image)
    requires ChainState(baseUrl, firstFrame, lastFrame, requested, cache, Some(frameId), None)
    requires image.src == FrameUrl(baseUrl, frameId) && frameId >= lastFrame
    ensures ChainState(baseUrl, firstFrame, lastFrame, requested, cache + [image], None, None)
  {
    CachedInOrderSnoc(baseUrl, firstFrame, cache, image);
  }

  /** A failure of the pending frame ends the chain with that frame's message. */
  lemma ChainAfterFailure(baseUrl: string, firstFrame: int, lastFrame: int, requested: seq<int>,
                          cache: seq<Image>, frameId: int)
    requires ChainState(baseUrl, firstFrame, lastFrame, requested, cache, Some(frameId), None)
    ensures ChainState(baseUrl, firstFrame, lastFrame, requested, cache, None,
                       Some(LoadErrorMessage(FrameUrl(baseUrl, frameId))))
  {
  }

  /** How many frames a chain fed `outcomes` caches. */
  function LoadedCount(firstFrame: int, lastFrame: int, outcomes: seq<LoadOutcome>): (n: nat)
    ensures n <= Span(firstFrame, lastFrame) && n <= |outcomes|
  {
    Min(LeadingLoaded(outcomes), Span(firstFrame, lastFrame))
  }

  /**
   * The outcome of the chain fed `outcomes`: `LoadedCount` frames cached,
   * the next one requested (if in range), and a failure recorded exactly
   * when that next frame's outcome is a failure.
   */
  lemma LoadedCountMeaning(firstFrame: int, lastFrame: int, outcomes: seq<LoadOutcome>)
    ensures var n := LoadedCount(firstFrame, lastFrame, outcomes);
            (forall i :: 0 <= i < n ==> outcomes[i].Loaded?) &&
            (n < Span(firstFrame, lastFrame) && n < |outcomes| ==> outcomes[n].LoadFailed?) &&
            (n == Span(firstFrame, lastFrame) || n == |outcomes| || outcomes[n].LoadFailed?)
  {
  }

  /**
   * The resize step run by `init` once the context is set: with a parent
   * element it reads the canvas back with `getImageData(0, 0, width,
   * height)`, which throws when either size is 0.
   */
  predicate ResizeThrows(hasParent: bool, canvasWidth: nat, canvasHeight: nat) {
    hasParent && (canvasWidth == 0 || canvasHeight == 0)
  }

  // ---------------------------------------------------------------------
  // Frame selection

  /** `Math.floor((sequenceEndNumber / 100) * percentage)`. */
  function FrameIndex(endNumber: int, percentage: real): (index: int)
    ensures index as real <= (endNumber as real / 100.0) * percentage < index as real + 1.0
  {
    ((endNumber as real / 100.0) * percentage).Floor
  }

  /** The cache index drawn for a percentage, if the cache holds it. */
  function FrameToDraw(endNumber: int, percentage: real, cached: nat): (r: Option<nat>)
    ensures r.Some? <==> 0 <= FrameIndex(endNumber, percentage) < cached
    ensures r.Some? ==> r.value == FrameIndex(endNumber, percentage)
  {
    var index := FrameIndex(endNumber, percentage);
    if 0 <= index < cached then Some(index) else None
  }

  /**
   * In exact arithmetic 0% selects index 0 and 100% selects index
   * `sequenceEndNumber`; JavaScript's doubles can round the latter down.
   */
  lemma FrameIndexEnds(endNumber: int)
    ensures FrameIndex(endNumber, 0.0) == 0
    ensures FrameIndex(endNumber, 100.0) == endNumber
  {
    assert (endNumber as real / 100.0) * 100.0 == endNumber as real;
  }

  /** For a non-negative end number, the index grows with the percentage and stays in `0..end`. */
  lemma FrameIndexMonotone(endNumber: int, p: real, q: real)
    requires endNumber >= 0 && p <= q
    ensures FrameIndex(endNumber, p) <= FrameIndex(endNumber, q)
    ensures 0.0 <= p && q <= 100.0 ==>
              0 <= FrameIndex(endNumber, p) && FrameIndex(endNumber, q) <= endNumber
  {
    FrameIndexStep(endNumber, p, q);
    if 0.0 <= p && q <= 100.0 {
      FrameIndexStep(endNumber, 0.0, p);
      FrameIndexStep(endNumber, q, 100.0);
      FrameIndexEnds(endNumber);
    }
  }

  lemma FrameIndexStep(endNumber: int, p: real, q: real)
    requires endNumber >= 0 && p <= q
    ensures FrameIndex(endNumber, p) <= FrameIndex(endNumber, q)
  {
    ScaledFloorMonotone(endNumber as real / 100.0, p, q);
  }

  lemma ScaledFloorMonotone(c: real, p: real, q: real)
    requires c >= 0.0 && p <= q
    ensures (c * p).Floor <= (c * q).Floor
  {
    var x, y := c * p, c * q;
    assert y - x == c * (q - p);
    FloorMonotone(x, y);
  }

  lemma FloorMonotone(x: real, y: real)
    requires x <= y
    ensures x.Floor <= y.Floor
  {
  }

  /**
   * The index is not offset by the start number, so in exact arithmetic,
   * with frames numbered from 1 or more, a full cache has no entry for
   * 100%: the last frame is never drawn by that percentage.
   */
  lemma NeverDrawsAtHundred(firstFrame: int, endNumber: int, cached: nat)
    requires firstFrame >= 1 && cached <= Span(firstFrame, endNumber)
    ensures FrameToDraw(endNumber, 100.0, cached) == None
  {
    FrameIndexEnds(endNumber);
  }

  /** The cached image at index `i` is frame `firstFrame + i`. */
  lemma DrawnFrameNumber(baseUrl: string, firstFrame: int, endNumber: int, percentage: real,
                         outcomes: seq<LoadOutcome>)
    requires forall i :: 0 <= i < |outcomes| ==> outcomes[i].Loaded?
    requires FrameToDraw(endNumber, percentage, |outcomes|).Some?
    requires firstFrame >= 0
    ensures var i := FrameToDraw(endNumber, percentage, |outcomes|).value;
            FrameNumber(baseUrl, Images(baseUrl, firstFrame, outcomes)[i].src) ==
            Some(firstFrame + FrameIndex(endNumber, percentage))
  {
    var i := FrameToDraw(endNumber, percentage, |outcomes|).value;
    FrameUrlRoundTrip(baseUrl, firstFrame + i);
  }

  /**
   * The demo's frames 1..255 at 50%: index 127, which a full cache holds
   * as frame 128 and a cache of ten frames does not hold.
   */
  lemma DemoFrameSelection(firstFrame: int, endNumber: int, percentage: real)
    requires firstFrame == 1 && endNumber == 255 && percentage == 50.0
    ensures FrameIndex(endNumber, percentage) == 127
    ensures FrameToDraw(endNumber, percentage, Span(firstFrame, endNumber)) == Some(127)
    ensures FrameToDraw(endNumber, percentage, 10) == None
  {
    assert (255.0 / 100.0) * 50.0 == 127.5;
  }

  // ---------------------------------------------------------------------
  // The manager object

  class SequenceManager {
    /** The canvas size in device pixels, fixed for the model (resizing is not modelled). */
    const canvasWidth: nat
    const canvasHeight: nat
    const baseUrlDesktop: string
    const baseUrlMobile: string
    const startNumber: int
    const endNumber: int
    const emitter: Emitter
    /** Whether a 2D context was obtained. */
    var context: bool
    var currentFrame: int
    var sequenceDesktop: seq<Image>
    var sequenceMobile: seq<Image>
    /** The frames whose image request was started, in order. */
    var requested: seq<int>
    /** The frame whose request has not settled yet. */
    var inFlight: Option<int>
    /** The rejection the chain ended with, if a frame failed to load. */
    var loadError: Option<string>
    /** Every `drawImage` call, in order. */
    var draws: seq<DrawCall>
    /** Whether the `scrollUpdate` handler is registered. */
    var subscribed: bool

    ghost predicate Valid()
      reads this
    {
      ChainState(baseUrlDesktop, startNumber, endNumber, requested, sequenceDesktop, inFlight, loadError) &&
      sequenceMobile == [] && currentFrame == 0 &&
      (subscribed || requested != [] ==> context)
    }

    /**
     * The constructor runs `init` and swallows what it throws: without a
     * 2D context nothing is loaded or subscribed; when the resize step
     * throws, the chain has started but the handler is not registered.
     */
    constructor (canvasWidth: nat, canvasHeight: nat, baseUrlDesktop: string, baseUrlMobile: string,
                 startNumber: int, endNumber: int, emitter: Emitter, contextAvailable: bool,
                 hasParent: bool)
      modifies emitter
      ensures Valid()
      ensures this.canvasWidth == canvasWidth && this.canvasHeight == canvasHeight
      ensures this.baseUrlDesktop == baseUrlDesktop && this.baseUrlMobile == baseUrlMobile
      ensures this.startNumber == startNumber && this.endNumber == endNumber && this.emitter == emitter
      ensures context == contextAvailable
      ensures subscribed == (contextAvailable && !ResizeThrows(hasParent, canvasWidth, canvasHeight))
      ensures sequenceDesktop == [] && draws == [] && loadError.None?
      ensures contextAvailable ==> requested == Ascending(startNumber, Min(1, Span(startNumber, endNumber)))
      ensures emitter.topics == old(emitter.topics) + (if subscribed then [ScrollUpdateTopic] else [])
      ensures !contextAvailable ==> requested == [] && inFlight.None?
      ensures emitter.events == old(emitter.events)
    {
      this.canvasWidth := canvasWidth;
      this.canvasHeight := canvasHeight;
      this.baseUrlDesktop := baseUrlDesktop;
      this.baseUrlMobile := baseUrlMobile;
      this.startNumber := startNumber;
      this.endNumber := endNumber;
      this.emitter := emitter;
      context := false;
      currentFrame := 0;
      sequenceDesktop := [];
      sequenceMobile := [];
      requested := [];
      inFlight := None;
      loadError := None;
      draws := [];
      subscribed := false;
      new;
      Init(contextAvailable, hasParent);
    }

    /**
     * Takes the context, starts the load chain, runs the resize step and
     * subscribes to `scrollUpdate`. A missing context throws before
     * anything happens; a throwing resize step stops `init` after the
     * chain has started and before the handler is registered.
     */
    method Init(contextAvailable: bool, hasParent: bool)
      requires Valid() && !context && !subscribed && requested == []
      modifies this, emitter
      ensures Valid()
      ensures context == contextAvailable
      ensures subscribed == (contextAvailable && !ResizeThrows(hasParent, canvasWidth, canvasHeight))
      ensures sequenceDesktop == old(sequenceDesktop) && draws == old(draws) && loadError == old(loadError)
      ensures contextAvailable ==> requested == Ascending(startNumber, Min(1, Span(startNumber, endNumber)))
      ensures emitter.topics == old(emitter.topics) + (if subscribed then [ScrollUpdateTopic] else [])
      ensures !contextAvailable ==> requested == [] && inFlight == old(inFlight)
      ensures emitter.events == old(emitter.events)
    {
      if !contextAvailable {
        return;
      }
      context := true;
      LoadSequence();
      if ResizeThrows(hasParent, canvasWidth, canvasHeight) {
        return;
      }
      emitter.On(ScrollUpdateTopic);
      subscribed := true;
    }

    /**
     * `loadFrame`: a frame outside `startNumber..endNumber` is ignored;
     * otherwise its image is requested. The model keeps a single chain,
     * so no request may be pending.
     */
    method LoadFrame(frameId: int)
      requires inFlight.None?
      modifies this`requested, this`inFlight
      ensures InRange(frameId, startNumber, endNumber) ==>
                requested == old(requested) + [frameId] && inFlight == Some(frameId)
      ensures !InRange(frameId, startNumber, endNumber) ==>
                requested == old(requested) && inFlight == None
    {
      if frameId == endNumber + 1 || frameId < startNumber || frameId > endNumber {
        return;
      }
      requested := requested + [frameId];
      inFlight := Some(frameId);
    }

    /** `loadSequence`: starts the chain at the first frame of the desktop sequence. */
    method LoadSequence()
      requires Valid() && context && requested == []
      modifies this`requested, this`inFlight
      ensures Valid()
      ensures requested == Ascending(startNumber, Min(1, Span(startNumber, endNumber)))
      ensures inFlight.Some? <==> startNumber <= endNumber
    {
      LoadFrame(startNumber);
    }

    /**
     * The pending request settles. On success the next frame is requested
     * and then the image is appended to the cache; on failure the chain
     * ends with an error naming the image, and nothing else changes.
     */
    method OnFrameSettled(outcome: LoadOutcome)
      requires Valid() && inFlight.Some?
      modifies this`requested, this`inFlight, this`sequenceDesktop, this`loadError
      ensures Valid()
      ensures outcome.Loaded? ==>
                sequenceDesktop == old(sequenceDesktop) +
                  [Image(FrameUrl(baseUrlDesktop, old(inFlight).value), outcome.width, outcome.height)] &&
                loadError.None? &&
                (if old(inFlight).value < endNumber
                 then requested == old(requested) + [old(inFlight).value + 1] && inFlight == Some(old(inFlight).value + 1)
                 else requested == old(requested) && inFlight.None?)
      ensures outcome.LoadFailed? ==>
                sequenceDesktop == old(sequenceDesktop) && requested == old(requested) && inFlight.None? &&
                loadError == Some(LoadErrorMessage(FrameUrl(baseUrlDesktop, old(inFlight).value)))
    {
      var frameId := inFlight.value;
      var imageSrc := FrameUrl(baseUrlDesktop, frameId);
      inFlight := None;
      match outcome {
        case Loaded(width, height) =>
          PendingInRange(baseUrlDesktop, startNumber, endNumber, requested, sequenceDesktop, frameId);
          if frameId < endNumber {
            ChainAfterLoad(baseUrlDesktop, startNumber, endNumber, requested, sequenceDesktop, frameId,
                           Image(imageSrc, width, height));
          } else {
            ChainAfterLastLoad(baseUrlDesktop, startNumber, endNumber, requested, sequenceDesktop, frameId,
                               Image(imageSrc, width, height));
          }
          LoadFrame(frameId + 1);
          sequenceDesktop := sequenceDesktop + [Image(imageSrc, width, height)];
        case LoadFailed =>
          ChainAfterFailure(baseUrlDesktop, startNumber, endNumber, requested, sequenceDesktop, frameId);
          loadError := Some(LoadErrorMessage(imageSrc));
      }
    }

    /**
     * Feeds the chain started by `loadSequence` with the given outcomes
     * until it stops or they run out: the cache is the leading loaded
     * frames, cut at the span, and the chain ends complete, failed at the
     * next frame, or waiting for it.
     */
    method RunLoadChain(outcomes: seq<LoadOutcome>) returns (consumed: nat)
      requires Valid() && context && sequenceDesktop == [] && loadError.None?
      requires requested == Ascending(startNumber, Min(1, Span(startNumber, endNumber)))
      modifies this`requested, this`inFlight, this`sequenceDesktop, this`loadError
      ensures Valid()
      ensures var n := LoadedCount(startNumber, endNumber, outcomes);
              sequenceDesktop == Images(baseUrlDesktop, startNumber, outcomes[..n]) &&
              requested == Ascending(startNumber, Min(n + 1, Span(startNumber, endNumber))) &&
              (loadError.Some? <==> n < Span(startNumber, endNumber) && n < |outcomes|) &&
              (inFlight.Some? <==> n < Span(startNumber, endNumber) && n == |outcomes|) &&
              consumed == n + (if loadError.Some? then 1 else 0)
    {
      var span := Span(startNumber, endNumber);
      consumed := 0;
      while consumed < |outcomes| && inFlight.Some?
        invariant Valid()
        invariant consumed <= |outcomes|
        invariant consumed == |sequenceDesktop| + (if loadError.Some? then 1 else 0)
        invariant CachedLoads(baseUrlDesktop, startNumber, sequenceDesktop, outcomes)
        invariant loadError.Some? ==> outcomes[consumed - 1].LoadFailed?
        invariant inFlight.None? && loadError.None? ==> |sequenceDesktop| == span
        decreases |outcomes| - consumed
      {
        ghost var cache := sequenceDesktop;
        OnFrameSettled(outcomes[consumed]);
        if outcomes[consumed].Loaded? {
          CachedLoadsStep(baseUrlDesktop, startNumber, cache, outcomes);
        }
        consumed := consumed + 1;
      }
      ChainStops(baseUrlDesktop, startNumber, endNumber, outcomes, consumed,
                 requested, sequenceDesktop, inFlight, loadError);
      assert outcomes[..|sequenceDesktop|] == outcomes[..LoadedCount(startNumber, endNumber, outcomes)];
    }

    /**
     * `draw`: a missing image or context makes the source throw; that
     * throw is the result `false`, with nothing drawn. Otherwise the image
     * is drawn to cover the canvas.
     */
    method Draw(image: Option<Image>) returns (drawn: bool)
      modifies this`draws
      ensures drawn <==> image.Some? && context
      ensures drawn ==>
                draws == old(draws) + [DrawCall(image.value, ScaleToFill(canvasWidth, canvasHeight,
                                                                        image.value.width, image.value.height))]
      ensures !drawn ==> draws == old(draws)
    {
      if image.None? || !context {
        return false;
      }
      var img := image.value;
      draws := draws + [DrawCall(img, ScaleToFill(canvasWidth, canvasHeight, img.width, img.height))];
      return true;
    }

    /**
     * The `scrollUpdate` handler: selects `floor(end / 100 * percentage)`
     * and draws that cache entry if there is one; the cache is untouched.
     */
    method OnScrollUpdate(message: Message) returns (drawn: Option<nat>)
      requires Valid() && subscribed
      modifies this`draws
      ensures drawn == FrameToDraw(endNumber, message.percentage, |sequenceDesktop|)
      ensures drawn.Some? ==>
                var image := sequenceDesktop[drawn.value];
                image.src == FrameUrl(baseUrlDesktop, startNumber + drawn.value) &&
                draws == old(draws) + [DrawCall(image, ScaleToFill(canvasWidth, canvasHeight, image.width, image.height))]
      ensures drawn.None? ==> draws == old(draws)
    {
      var percentage := message.percentage;
      var frame := FrameIndex(endNumber, percentage);
      if 0 <= frame < |sequenceDesktop| {
        var ok := Draw(Some(sequenceDesktop[frame]));
        drawn := Some(frame);
      } else {
        drawn := None;
      }
    }
  }

  /**
   * Where a chain fed `outcomes` stops: once the outcomes run out, the
   * chain fails or it completes, its state is the closed form `RunLoadChain`
   * promises.
   */
  lemma ChainStops(baseUrl: string, firstFrame: int, lastFrame: int, outcomes: seq<LoadOutcome>,
                   consumed: nat, requested: seq<int>, cache: seq<Image>,
                   inFlight: Option<int>, loadError: Option<string>)
    requires ChainState(baseUrl, firstFrame, lastFrame, requested, cache, inFlight, loadError)
    requires consumed <= |outcomes| && !(consumed < |outcomes| && inFlight.Some?)
    requires consumed == |cache| + (if loadError.Some? then 1 else 0)
    requires forall i :: 0 <= i < |cache| ==> outcomes[i].Loaded?
    requires loadError.Some? ==> outcomes[consumed - 1].LoadFailed?
    requires inFlight.None? && loadError.None? && requested != [] ==> |cache| == Span(firstFrame, lastFrame)
    requires requested == [] ==> Span(firstFrame, lastFrame) == 0
    ensures var n := LoadedCount(firstFrame, lastFrame, outcomes);
            |cache| == n &&
            requested == Ascending(firstFrame, Min(n + 1, Span(firstFrame, lastFrame))) &&
            (loadError.Some? <==> n < Span(firstFrame, lastFrame) && n < |outcomes|) &&
            (inFlight.Some? <==> n < Span(firstFrame, lastFrame) && n == |outcomes|)
  {
    var span := Span(firstFrame, lastFrame);
    if |cache| < span {
      LeadingLoadedAt(outcomes, |cache|);
    } else {
      LeadingLoadedAtLeast(outcomes, span);
    }
  }

  /** Splitting off the leading loaded outcomes. */
  lemma LeadingLoadedAt(outcomes: seq<LoadOutcome>, n: nat)
    requires n <= |outcomes|
    requires forall i :: 0 <= i < n ==> outcomes[i].Loaded?
    requires n < |outcomes| ==> outcomes[n].LoadFailed?
    ensures LeadingLoaded(outcomes) == n
  {
  }

  lemma {:induction false} LeadingLoadedAtLeast(outcomes: seq<LoadOutcome>, n: nat)
    requires n <= |outcomes|
    requires forall i :: 0 <= i < n ==> outcomes[i].Loaded?
    ensures LeadingLoaded(outcomes) >= n
  {
    if n > 0 {
      LeadingLoadedAtLeast(outcomes[1..], n - 1);
    }
  }

  /** `cache` is the images of the first outcomes, all of them loads. */
  ghost predicate CachedLoads(baseUrl: string, firstFrame: int, cache: seq<Image>, outcomes: seq<LoadOutcome>) {
    |cache| <= |outcomes| &&
    (forall i :: 0 <= i < |cache| ==> outcomes[i].Loaded?) &&
    cache == Images(baseUrl, firstFrame, outcomes[..|cache|])
  }

  /** Caching the next outcome, a load, keeps the cache the images of the first outcomes. */
  lemma CachedLoadsStep(baseUrl: string, firstFrame: int, cache: seq<Image>, outcomes: seq<LoadOutcome>)
    requires CachedLoads(baseUrl, firstFrame, cache, outcomes)
    requires |cache| < |outcomes| && outcomes[|cache|].Loaded?
    ensures var o := outcomes[|cache|];
            CachedLoads(baseUrl, firstFrame, cache + [Image(FrameUrl(baseUrl, firstFrame + |cache|), o.width, o.height)],
                        outcomes)
  {
    var n := |cache|;
    ImagesSnoc(baseUrl, firstFrame, outcomes, n);
  }

  /** Caching one more loaded frame extends the cache by that frame's image. */
  lemma ImagesSnoc(baseUrl: string, firstFrame: int, outcomes: seq<LoadOutcome>, n: nat)
    requires n < |outcomes|
    requires forall i :: 0 <= i <= n ==> outcomes[i].Loaded?
    ensures Images(baseUrl, firstFrame, outcomes[..n + 1]) ==
            Images(baseUrl, firstFrame, outcomes[..n]) +
            [Image(FrameUrl(baseUrl, firstFrame + n), outcomes[n].width, outcomes[n].height)]
  {
  }
}
