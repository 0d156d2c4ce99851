/**
 * The entry class: validates its inputs in a fixed order and, when all
 * checks pass, wires a scroll observer and a sequence manager to one
 * shared emitter.
 */
module Story {
  import opened Wrappers
  import opened Channel
  import opened Observer
  import opened Sequence
  import ScaleFill

  /** Why construction stopped early. */
  datatype InitError = TriggerNotFound | CanvasNotFound | FramesIllogical(start: int, end: int)

  /** A canvas the lookup found: its size, whether it yields a 2D context and whether it has a parent element. */
  datatype CanvasElement = CanvasElement(width: nat, height: nat, hasContext: bool, hasParent: bool)

  /** Whether the manager built for `canvas` registers its `scrollUpdate` handler. */
  predicate Subscribes(canvas: CanvasElement) {
    canvas.hasContext && !ResizeThrows(canvas.hasParent, canvas.width, canvas.height)
  }

  /** `checkFramesStartAndEnd`: an error unless the start frame comes before the end frame. */
  function CheckFramesStartAndEnd(start: int, end: int): (r: Result<bool, InitError>)
    ensures r.Failure? <==> start >= end
    ensures r.Failure? ==> r.error == FramesIllogical(start, end)
    ensures r.Success? ==> r.value
  {
    if start >= end then Failure(FramesIllogical(start, end)) else Success(true)
  }

  /** A sequence of a single frame is rejected too, although only `start > end` is named as illogical. */
  lemma SingleFrameRejected(frame: int)
    ensures CheckFramesStartAndEnd(frame, frame) == Failure(FramesIllogical(frame, frame))
  {
  }

  /** Negative frame bounds pass the check as long as the start comes first. */
  lemma NegativeBoundsAccepted(start: int, end: int)
    requires start < end < 0
    ensures CheckFramesStartAndEnd(start, end) == Success(true)
  {
  }

  /** The check `init` stops at: trigger lookup, then canvas lookup, then the frame bounds. */
  function InitFailure(triggerFound: bool, canvasFound: bool, start: int, end: int): (r: Option<InitError>)
    ensures r.None? <==> triggerFound && canvasFound && start < end
    ensures !triggerFound ==> r == Some(TriggerNotFound)
    ensures triggerFound && !canvasFound ==> r == Some(CanvasNotFound)
    ensures triggerFound && canvasFound && start >= end ==> r == Some(FramesIllogical(start, end))
  {
    if !triggerFound then Some(TriggerNotFound)
    else if !canvasFound then Some(CanvasNotFound)
    else match CheckFramesStartAndEnd(start, end)
         case Failure(e) => Some(e)
         case Success(_) => None
  }

  /** A failed lookup hides any later problem: the first failing check is the one reported. */
  lemma FirstFailureWins(triggerFound: bool, canvasFound: bool, start: int, end: int)
    requires !triggerFound || !canvasFound
    ensures InitFailure(triggerFound, canvasFound, start, end) != Some(FramesIllogical(start, end))
  {
  }

  class ScrollTroughStory {
    const desktopUrl: string
    const mobileUrl: string
    const startFrameNumber: int
    const endFrameNumber: int
    const triggerStart: string
    const triggerEnd: string
    const emitter: Emitter
    /** Whether the trigger and canvas fields were replaced by found elements. */
    var triggerResolved: bool
    var canvasResolved: bool
    var scrollObserver: ScrollObserver?
    var sequenceManager: SequenceManager?
    /** The error `init` logged before returning early. */
    var failure: Option<InitError>

    ghost predicate Valid()
      reads this, sequenceManager
    {
      (failure.Some? ==> scrollObserver == null && sequenceManager == null) &&
      (failure.None? ==>
         scrollObserver != null && sequenceManager != null &&
         scrollObserver.emitter == emitter && sequenceManager.emitter == emitter &&
         scrollObserver.scrubStart == triggerStart && scrollObserver.scrubEnd == triggerEnd &&
         sequenceManager.baseUrlDesktop == desktopUrl && sequenceManager.baseUrlMobile == mobileUrl &&
         sequenceManager.startNumber == startFrameNumber && sequenceManager.endNumber == endFrameNumber &&
         sequenceManager.Valid())
    }

    /**
     * The lookups of the trigger element and of the canvas are given as
     * their outcomes; the constructor creates the emitter and runs `init`.
     */
    constructor (desktopUrl: string, mobileUrl: string, startFrameNumber: int, endFrameNumber: int,
                 triggerStart: string, triggerEnd: string,
                 triggerFound: bool, canvas: Option<CanvasElement>)
      ensures Valid() && fresh(emitter)
      ensures this.desktopUrl == desktopUrl && this.mobileUrl == mobileUrl
      ensures this.startFrameNumber == startFrameNumber && this.endFrameNumber == endFrameNumber
      ensures this.triggerStart == triggerStart && this.triggerEnd == triggerEnd
      ensures failure == InitFailure(triggerFound, canvas.Some?, startFrameNumber, endFrameNumber)
      ensures triggerResolved == triggerFound && canvasResolved == (triggerFound && canvas.Some?)
      ensures failure.Some? ==> emitter.topics == [] && emitter.events == []
      ensures failure.None? ==>
                fresh(scrollObserver) && fresh(sequenceManager) &&
                scrollObserver.scrollPercentage == 0.0 &&
                sequenceManager.canvasWidth == canvas.value.width &&
                sequenceManager.canvasHeight == canvas.value.height &&
                sequenceManager.subscribed == Subscribes(canvas.value) &&
                sequenceManager.context == canvas.value.hasContext &&
                sequenceManager.sequenceDesktop == [] && sequenceManager.draws == [] &&
                sequenceManager.loadError.None? &&
                (if canvas.value.hasContext
                 then sequenceManager.requested == Ascending(startFrameNumber, 1) &&
                      sequenceManager.inFlight == Some(startFrameNumber)
                 else sequenceManager.requested == [] && sequenceManager.inFlight.None?) &&
                emitter.topics == (if Subscribes(canvas.value) then [ScrollUpdateTopic] else []) &&
                emitter.events == []
    {
      this.desktopUrl := desktopUrl;
      this.mobileUrl := mobileUrl;
      this.startFrameNumber := startFrameNumber;
      this.endFrameNumber := endFrameNumber;
      this.triggerStart := triggerStart;
      this.triggerEnd := triggerEnd;
      emitter := new Emitter();
      triggerResolved := false;
      canvasResolved := false;
      scrollObserver := null;
      sequenceManager := null;
      failure := None;
      new;
      Init(triggerFound, canvas);
    }

    /**
     * `init`: each failing check is logged and returns at once; only when
     * all pass are the observer and then the manager built. The scrub
     * strings are passed on without validation.
     */
    method Init(triggerFound: bool, canvas: Option<CanvasElement>)
      requires scrollObserver == null && sequenceManager == null && failure.None?
      requires !triggerResolved && !canvasResolved
      modifies this, emitter
      ensures Valid()
      ensures failure == InitFailure(triggerFound, canvas.Some?, startFrameNumber, endFrameNumber)
      ensures triggerResolved == triggerFound && canvasResolved == (triggerFound && canvas.Some?)
      ensures failure.Some? ==> unchanged(emitter)
      ensures failure.None? ==>
                fresh(scrollObserver) && fresh(sequenceManager) &&
                scrollObserver.scrollPercentage == 0.0 &&
                sequenceManager.canvasWidth == canvas.value.width &&
                sequenceManager.canvasHeight == canvas.value.height &&
                sequenceManager.subscribed == Subscribes(canvas.value) &&
                sequenceManager.context == canvas.value.hasContext &&
                sequenceManager.sequenceDesktop == [] && sequenceManager.draws == [] &&
                sequenceManager.loadError.None? &&
                (if canvas.value.hasContext
                 then sequenceManager.requested == Ascending(startFrameNumber, 1) &&
                      sequenceManager.inFlight == Some(startFrameNumber)
                 else sequenceManager.requested == [] && sequenceManager.inFlight.None?) &&
                emitter.topics == old(emitter.topics) + (if Subscribes(canvas.value) then [ScrollUpdateTopic] else []) &&
                emitter.events == old(emitter.events)
    {
      if !triggerFound {
        failure := Some(TriggerNotFound);
        return;
      }
      triggerResolved := true;
      if canvas.None? {
        failure := Some(CanvasNotFound);
        return;
      }
      canvasResolved := true;
      var check := CheckFramesStartAndEnd(startFrameNumber, endFrameNumber);
      if check.Failure? {
        failure := Some(check.error);
        return;
      }
      var observer := new ScrollObserver(triggerStart, triggerEnd, emitter);
      scrollObserver := observer;
      var element := canvas.value;
      var manager := new SequenceManager(element.width, element.height, desktopUrl, mobileUrl,
                                          startFrameNumber, endFrameNumber, emitter, element.hasContext,
                                          element.hasParent);
      sequenceManager := manager;
    }

    /**
     * One scroll notification, with the emitter delivering the published
     * percentage to the manager's handler when one is registered: the
     * frame drawn is the one the published percentage selects, and nothing
     * is drawn when no percentage is published or no handler listens.
     */
    method OnScroll(innerHeight: real, rect: Rect) returns (drawn: Option<nat>)
      requires Valid() && failure.None?
      modifies scrollObserver, emitter, sequenceManager`draws
      ensures Valid()
      ensures var published := ScrollProgress(triggerStart, triggerEnd, innerHeight, rect);
              drawn == (if published.Some? && sequenceManager.subscribed
                        then FrameToDraw(endFrameNumber, published.value, |sequenceManager.sequenceDesktop|)
                        else None)
      ensures drawn.Some? ==>
                var image := sequenceManager.sequenceDesktop[drawn.value];
                image.src == Sequence.FrameUrl(desktopUrl, startFrameNumber + drawn.value) &&
                sequenceManager.draws ==
                  old(sequenceManager.draws) +
                  [DrawCall(image, ScaleFill.ScaleToFill(sequenceManager.canvasWidth, sequenceManager.canvasHeight,
                                                         image.width, image.height))]
      ensures drawn.None? ==> sequenceManager.draws == old(sequenceManager.draws)
      ensures sequenceManager.sequenceDesktop == old(sequenceManager.sequenceDesktop)
      ensures emitter.topics == old(emitter.topics)
      ensures var published := ScrollProgress(triggerStart, triggerEnd, innerHeight, rect);
              if published.Some? then
                scrollObserver.scrollPercentage == published.value &&
                emitter.events == old(emitter.events) + [ScrollUpdate(published.value)]
              else
                scrollObserver.scrollPercentage == old(scrollObserver.scrollPercentage) &&
                emitter.events == old(emitter.events)
    {
      var before := |emitter.events|;
      scrollObserver.GetElementPosition(innerHeight, rect);
      if |emitter.events| > before && sequenceManager.subscribed {
        var message := emitter.events[|emitter.events| - 1];
        drawn := sequenceManager.OnScrollUpdate(message);
      } else {
        drawn := None;
      }
    }
  }

  /**
   * The demo page's configuration builds both parts: frames 1..255 pass the
   * check and the scrubs "top center" and "bottom bottom" are never
   * validated on the way.
   */
  lemma DemoConfigurationAccepted(start: int, end: int)
    requires start == 1 && end == 255
    ensures InitFailure(true, true, start, end) == None
  {
  }
}
