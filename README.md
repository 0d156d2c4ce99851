# scrollTroughStory in Dafny

scrollTroughStory syncs a canvas "flip-book" to scrolling. A scroll trigger
element is watched while the page scrolls. Its position relative to the
viewport is turned into a percentage, which is sent as a `scrollUpdate`
event on a shared emitter. A sequence manager loads the numbered JPEG frames
one after the other and draws the frame that the percentage selects, scaled
to cover the canvas.

This project models the core of the library and proves properties of that
model. It has these parts:

| file | module | models |
|---|---|---|
| `wrappers.dfy` | `Wrappers` | `Option` and `Result` |
| `js_string.dfy` | `JsString` | the JavaScript string built-ins the core relies on: `split(/\W+/)` (empty leading and trailing fields kept), `split(" ")`, ASCII `toLowerCase`, `Number.prototype.toString` for integers, `padStart` |
| `scrubs.dfy` | `Scrubs` | the scrub validator: `composedByTwoWords`, `compsedByCorrectWords`, `verifyScrub`, `verifyScrubs`, plus the expectations of its unit tests |
| `scale_to_fill.dfy` | `ScaleFill` | the "cover" placement computed by `ScaleToFill` |
| `channel.dfy` | `Channel` | the emitter, as a log of emitted events and a list of registered topics |
| `scroll_observer.dfy` | `Observer` | `ScrollObserver`: anchor resolution, the progress formula and its publish guard, the intersection callback, `sendScrollPercentage`, `onResize` |
| `sequence_manager.dfy` | `Sequence` | `SequenceManager`: frame URLs, the one-at-a-time load chain that fills the `sequenceDesktop` cache, `init`, the `scrollUpdate` handler, `draw` |
| `story.dfy` | `Story` | `ScrollTroughStory`: `checkFramesStartAndEnd` and the ordered early returns of `init` |

## How the model works

**Pure code and stateful code.** Pure code becomes functions and lemmas.
Code that updates objects becomes classes whose methods carry `modifies`
clauses and state the new state in full.

**Browser inputs.** Everything the browser supplies is a parameter:
- whether the trigger and canvas lookups succeed;
- the canvas size, whether it yields a 2D context and whether it has a
  parent element;
- `window.innerHeight` and the trigger's bounding rectangle;
- the intersection entries;
- the outcome of each image request.

**Arithmetic.** Numbers are exact: `real` for geometry and `int` for frame
numbers. A `pixelsToScroll` of 0 is modelled as "nothing published".
JavaScript gets NaN or an infinity there, and both fail the range test.

**The load chain.** In the source the chain lives in closures and promises.
The model makes its state explicit in `SequenceManager`:
- `requested`: the frames whose image request was started;
- `inFlight`: the pending frame;
- `loadError`: the rejection the chain ended with.

`ChainState` is the invariant these fields keep. `RunLoadChain` feeds a
sequence of load outcomes to the chain and states the closed form it
reaches.

### Where the code and the intended design differ

The model follows the code in each case.

- `ScrollTroughStory.init` never calls the scrub validator. Any trigger
  strings are passed to the observer unchecked.
- The element "center" anchor is `rect.top - height / 2`. That point lies
  half a height above the element, not at its middle
  (`Observer.ElementAnchorTable`).
- The observer compares anchor words case-sensitively, while the validator
  lower-cases them. So "top Bottom" passes validation but anchors the
  viewport at 0 (`Observer.AnchorWordsAreCaseSensitive`).
- The frame index `floor(end / 100 * percentage)` is not offset by the
  start number. In exact arithmetic, with frames numbered from 1, the 100%
  position never draws (`Sequence.NeverDrawsAtHundred`). Double rounding can
  change this; see "## Left out".
- `checkFramesStartAndEnd` accepts negative frame bounds whenever the start
  is below the end (`Story.NegativeBoundsAccepted`).
- `checkFramesStartAndEnd` also rejects `start == end`, although its message
  speaks only of start > end (`Story.SingleFrameRejected`).
- A canvas with a parent element and a width or height of 0 makes the
  resize step in `init` throw (`getImageData` refuses an empty area). The
  constructor swallows the error after the load chain has started, so the
  frames load but the `scrollUpdate` handler is never registered
  (`Sequence.SequenceManager.Init`).
- A progress value outside `[0, 100]` is dropped, not clamped to the range
  (`Observer.Progress`).
- The intersection callback emits 100 when the trigger leaves the viewport,
  but the scroll listener stays attached. Later scroll notifications are
  still processed (`Observer.ScrollObserver.GetElementPosition`).
- The selected frame index is not clamped into the start..end frame range.
  An index with no cache entry draws nothing (`Sequence.FrameToDraw`).

## Model

| member | source | states |
|---|---|---|
| Scrubs.ComposedByTwoWords | src/scroll-trough-story/scrollObserver/scrubs/verifyScrubs.ts:4-7 | a scrub has two words exactly when `split(/\W+/)` yields two fields |
| JsString.SplitNonWord | src/scroll-trough-story/scrollObserver/scrubs/verifyScrubs.ts:5 | `split(/\W+/)`: at least one field, and every field is made of word characters only |
| JsString.TwoFieldsShape | src/scroll-trough-story/scrollObserver/scrubs/verifyScrubs.ts:5 | `split(/\W+/)` yields two fields iff the string is word characters, one non-empty run of non-word characters, then word characters |
| JsString.SplitOn | src/scroll-trough-story/scrollObserver/scrubs/verifyScrubs.ts:10 | `split(" ")`: at least one field, and no field contains the separator |
| JsString.JoinSplitOn | src/scroll-trough-story/scrollObserver/scrubs/verifyScrubs.ts:10 | joining the fields of `split(c)` with `c` gives back the string |
| JsString.SplitOnHasSecond | src/scroll-trough-story/scrollObserver/scrubs/verifyScrubs.ts:10 | `split(c)` has a second field iff `c` occurs in the string |
| JsString.SplitOnFirstIsPrefix | src/scroll-trough-story/scrollObserver/scrubs/verifyScrubs.ts:10 | the first field of `split(c)` is the prefix before the first `c` |
| JsString.Lower | src/scroll-trough-story/scrollObserver/scrubs/verifyScrubs.ts:12-15 | the ASCII lower-casing modelled for `toLowerCase`: it keeps the length and maps each character on its own |
| JsString.LowerIdempotent | src/scroll-trough-story/scrollObserver/scrubs/verifyScrubs.ts:12-15 | lower-casing twice is lower-casing once |
| JsString.LowerKeepsClasses | src/scroll-trough-story/scrollObserver/scrubs/verifyScrubs.ts:5-12 | lower-casing keeps word and non-word characters as they are, so the `\W+` split is unchanged |
| Scrubs.ComposedByCorrectWords | src/scroll-trough-story/scrollObserver/scrubs/verifyScrubs.ts:9-19 | both of the first two space-separated fields, lower-cased, are in the list; a missing second field is the TypeError |
| Scrubs.CorrectWordsFailure | src/scroll-trough-story/scrollObserver/scrubs/verifyScrubs.ts:10-15 | the word check throws exactly when the scrub contains no space |
| Scrubs.ScrubWordShape | src/scroll-trough-story/scrollObserver/scrubs/verifyScrubs.ts:2-16 | a word accepted by the list is non-empty, made of word characters and without spaces |
| Scrubs.VerifyScrub | src/scroll-trough-story/scrollObserver/scrubs/verifyScrubs.ts:21-27 | a scrub without two words is false without consulting the list; a true verdict implies both checks passed |
| Scrubs.VerifyScrubCrashes | src/scroll-trough-story/scrollObserver/scrubs/verifyScrubs.ts:10-27 | `verifyScrub` throws iff the scrub has two words and no space |
| Scrubs.TabSeparatedScrubCrashes | src/scroll-trough-story/scrollObserver/scrubs/verifyScrubs.ts:10-15 | "top\tbottom" makes `verifyScrub` throw |
| Scrubs.VerifyScrubOfPair | src/scroll-trough-story/scrollObserver/scrubs/verifyScrubs.ts:9-27 | for two words joined by one space, the verdict is whether both lower-case to listed words |
| Scrubs.VerifyScrubGrammar | src/scroll-trough-story/scrollObserver/scrubs/verifyScrubs.ts:2-27 | `verifyScrub` is true iff the scrub is a listed word, one space and a listed word, in any letter case |
| Scrubs.CaseInsensitive | src/scroll-trough-story/scrollObserver/scrubs/verifyScrubs.ts:12-15 | scrubs that differ only in letter case get the same verdict, error included |
| Scrubs.VerifyScrubs | src/scroll-trough-story/scrollObserver/scrubs/verifyScrubs.ts:29-34 | the verdict is the conjunction of both scrubs' verdicts; it is true iff both are true; an error from either escapes |
| Scrubs.NotTwoWordsExamples | src/scroll-trough-story/scrollObserver/scrubs/test/verifyScrubs.test.ts:10-13 | "toptop" and "" do not have two words |
| Scrubs.TwoWordsExample | src/scroll-trough-story/scrollObserver/scrubs/test/verifyScrubs.test.ts:15-17 | "top bottom" has two words |
| Scrubs.WrongWordsExamples | src/scroll-trough-story/scrollObserver/scrubs/test/verifyScrubs.test.ts:19-22 | "hello bottom" and "hello world" fail the word check |
| Scrubs.RightWordsExamples | src/scroll-trough-story/scrollObserver/scrubs/test/verifyScrubs.test.ts:24-28 | "top top", "top bottom" and "bottom bottom" pass the word check |
| Scrubs.VerifyScrubRejectsOneWordExamples | src/scroll-trough-story/scrollObserver/scrubs/test/verifyScrubs.test.ts:30-33 | "HelloWorld" and "" are rejected |
| Scrubs.VerifyScrubRejectsWrongWordExamples | src/scroll-trough-story/scrollObserver/scrubs/test/verifyScrubs.test.ts:35-43 | "Hello World", "Top Bttom" and "hello World" are rejected |
| Scrubs.VerifyScrubAcceptsExamples | src/scroll-trough-story/scrollObserver/scrubs/test/verifyScrubs.test.ts:45-48 | "Top bottom" and "bottom bottom" are accepted |
| Scrubs.VerifyScrubsRejectsExamples | src/scroll-trough-story/scrollObserver/scrubs/test/verifyScrubs.test.ts:50-53 | "hello world" with "Hello World" is rejected, and so is the valid "top tOp" with "bttm bottom" |
| Scrubs.VerifyScrubsBothRightExample | src/scroll-trough-story/scrollObserver/scrubs/test/verifyScrubs.test.ts:55-57 | "top top" with "Bottom Bottom" is accepted |
| Scrubs.VerifyScrubTotal | src/scroll-trough-story/scrollObserver/scrubs/verifyScrubs.ts:9-27 | the validator without the crash: it accepts exactly the scrub grammar, agrees with `verifyScrub` wherever that answers, and rejects where it throws |
| ScaleFill.Scale | src/scroll-trough-story/utils/scaleToFill.ts:7 | the scale covers both canvas axes and fits one of them exactly |
| ScaleFill.ScaleIsLeastCover | src/scroll-trough-story/utils/scaleToFill.ts:7 | every scale that covers both axes is at least `max(W/w, H/h)`, so the scale is the least covering one |
| ScaleFill.ScaleToFill | src/scroll-trough-story/utils/scaleToFill.ts:1-12 | the drawn rectangle covers the canvas, is centred on it, starts at or before its origin, fits one axis exactly and keeps the image's aspect ratio |
| Channel.Emitter.Emit | src/scroll-trough-story/scrollObserver/scrollObserver.ts:48 | an emitted event is appended to the log; registrations are unchanged |
| Channel.Emitter.On | src/scroll-trough-story/sequenceManager/sequenceManager.ts:164 | a registration is appended; the event log is unchanged |
| Observer.ViewportAnchorTable | src/scroll-trough-story/scrollObserver/scrollObserver.ts:61-81 | "top" gives 0, "center" half the viewport height, "bottom" the viewport height, any other or missing word 0; every anchor lies within the viewport |
| Observer.ElementAnchorTable | src/scroll-trough-story/scrollObserver/scrollObserver.ts:83-92 | the element anchor is `rect.top` by default, `rect.bottom` for "bottom", and half a height above the top for "center" |
| Observer.AnchorWordsAreCaseSensitive | src/scroll-trough-story/scrollObserver/scrollObserver.ts:55-81 | "top Bottom" passes the validator, yet its viewport anchor is 0 and not the viewport height |
| Observer.DemoScrubs | src/main.ts:19-20 | with "top center" and "bottom bottom", the range runs from the middle to the bottom of the viewport, over the element height minus half the viewport |
| Observer.ResolveAnchors | src/scroll-trough-story/scrollObserver/scrollObserver.ts:55-92 | the four anchors of one notification: the viewport start and end anchors from the second words of the two scrubs, the element anchor from the first word of the start scrub, and the element's height; each anchor is given by `ViewportAnchorTable` and `ElementAnchorTable` |
| Observer.PixelsToScroll | src/scroll-trough-story/scrollObserver/scrollObserver.ts:97 | the distance the element travels between the two alignments: its height plus the viewport start anchor minus the viewport end anchor; `Progress` divides by it |
| Observer.ScrollProgress | src/scroll-trough-story/scrollObserver/scrollObserver.ts:94-103 | the percentage one scroll notification publishes, if any, for the given scrubs, viewport height and rectangle: `Progress` of the resolved anchors, with the properties proved there and in `ScrollProgressMonotone` |
| Observer.StartDelta | src/scroll-trough-story/scrollObserver/scrollObserver.ts:94-95 | `startDelta` is `min(elementTop - viewportStart, 0)`: never positive, never above the offset, and one of the two |
| Observer.Progress | src/scroll-trough-story/scrollObserver/scrollObserver.ts:97-103 | a value is published iff the distance is non-zero and the travel does not exceed it; the value lies in [0, 100] and is the travel as a percentage of the distance |
| Observer.ProgressZeroBeforeStart | src/scroll-trough-story/scrollObserver/scrollObserver.ts:94-102 | while the element anchor is at or below the viewport start, exactly 0 is published |
| Observer.ProgressHundredAtEnd | src/scroll-trough-story/scrollObserver/scrollObserver.ts:94-102 | once the element has travelled the whole distance, exactly 100 is published |
| Observer.ShiftMovesElementStart | src/scroll-trough-story/scrollObserver/scrollObserver.ts:83-92 | moving the element up moves only its start anchor, by the same amount |
| Observer.ProgressMonotone | src/scroll-trough-story/scrollObserver/scrollObserver.ts:94-103 | of two published values, the one for the element further up is not smaller |
| Observer.ScrollProgressMonotone | src/scroll-trough-story/scrollObserver/scrollObserver.ts:54-103 | the same for whole scroll notifications, as the page scrolls forward |
| Observer.IntersectionMessages | src/scroll-trough-story/scrollObserver/scrollObserver.ts:28-38 | one event per entry, in entry order: 0 for an intersecting entry, 100 for any other |
| Observer.ScrollObserver.constructor | src/scroll-trough-story/scrollObserver/scrollObserver.ts:9-21 | the observer keeps its scrubs and emitter and starts at 0% |
| Observer.ScrollObserver.OnIntersection | src/scroll-trough-story/scrollObserver/scrollObserver.ts:26-41 | the callback appends exactly the per-entry events to the log |
| Observer.ScrollObserver.SendScrollPercentage | src/scroll-trough-story/scrollObserver/scrollObserver.ts:47-49 | one `scrollUpdate` event with the given percentage is appended |
| Observer.ScrollObserver.GetElementPosition | src/scroll-trough-story/scrollObserver/scrollObserver.ts:54-104 | a value in range is stored and emitted once; otherwise the stored percentage and the log stay as they were; the stored percentage stays in [0, 100] |
| Observer.ScrollObserver.OnResize | src/scroll-trough-story/scrollObserver/scrollObserver.ts:112-114 | the resize listener changes nothing and emits nothing |
| Sequence.FrameUrl | src/scroll-trough-story/sequenceManager/sequenceManager.ts:69 | the URL of a frame: the base URL, the frame number padded to four digits, then `.jpg`; `FrameUrlShape`, `FrameUrlRoundTrip` and `FrameUrlPadding` state its properties |
| Sequence.FrameUrlShape | src/scroll-trough-story/sequenceManager/sequenceManager.ts:69 | a frame URL starts with the base URL and ends with `.jpg`, with at least four characters of number between |
| Sequence.FrameUrlRoundTrip | src/scroll-trough-story/sequenceManager/sequenceManager.ts:69 | the frame number can be read back from a frame's URL |
| Sequence.FrameUrlInjective | src/scroll-trough-story/sequenceManager/sequenceManager.ts:69 | different frames get different URLs |
| Sequence.FrameUrlPadding | src/scroll-trough-story/sequenceManager/sequenceManager.ts:69 | numbers below 10000 are padded to four digits; larger ones keep all their digits, unpadded |
| Sequence.FrameUrlExamples | src/scroll-trough-story/sequenceManager/sequenceManager.ts:69 | frame 7 is `0007.jpg` and frame 12345 is `12345.jpg` |
| JsString.NatToStringValue | src/scroll-trough-story/sequenceManager/sequenceManager.ts:69 | the decimal digits `toString` writes denote the number |
| JsString.NatToStringLength | src/scroll-trough-story/sequenceManager/sequenceManager.ts:69 | a number has at most `w` digits iff it is below 10^w |
| Sequence.InRangeBounds | src/scroll-trough-story/sequenceManager/sequenceManager.ts:61-67 | `loadFrame` fetches a frame iff it is within `firstFrame..lastFrame`; the `lastFrame + 1` test is subsumed |
| Sequence.Images | src/scroll-trough-story/sequenceManager/sequenceManager.ts:69-80 | the i-th cached image is frame `firstFrame + i` with its loaded size |
| Sequence.LeadingLoaded | src/scroll-trough-story/sequenceManager/sequenceManager.ts:77-86 | the outcomes before the first failure are all loads, and the next one is a failure |
| Sequence.ChainState | src/scroll-trough-story/sequenceManager/sequenceManager.ts:60-93 | the invariant of the load chain: frames are requested in ascending order from the first, the cache holds the loaded ones in that order, at most one request is pending and it is for the frame after the last cached, a failure ends the chain with the failed frame's message |
| Sequence.ChainStateOrder | src/scroll-trough-story/sequenceManager/sequenceManager.ts:61-90 | every requested frame is in range, and a frame after the first is requested only once its predecessor is cached |
| Sequence.ChainAfterLoad | src/scroll-trough-story/sequenceManager/sequenceManager.ts:78-81 | loading a frame before the last caches it, requests the next frame and keeps the chain invariant |
| Sequence.ChainAfterLastLoad | src/scroll-trough-story/sequenceManager/sequenceManager.ts:61-81 | loading the last frame caches it, requests nothing in range and leaves the chain complete |
| Sequence.ChainAfterFailure | src/scroll-trough-story/sequenceManager/sequenceManager.ts:82-86 | a failed load ends the chain with the failed frame's message and keeps the invariant |
| Sequence.LoadedCount | src/scroll-trough-story/sequenceManager/sequenceManager.ts:61-80 | the cache never holds more frames than the range or than the settled outcomes |
| Sequence.LoadedCountMeaning | src/scroll-trough-story/sequenceManager/sequenceManager.ts:77-86 | the frames cached are all loads; the chain stops complete, out of outcomes, or at a failure |
| Sequence.ChainStops | src/scroll-trough-story/sequenceManager/sequenceManager.ts:60-93 | a chain that has stopped has cached the leading loads cut at the range, requested one frame more unless complete, and failed iff outcomes remain |
| Sequence.SequenceManager.constructor | src/scroll-trough-story/sequenceManager/sequenceManager.ts:16-39 | without a 2D context nothing is loaded or subscribed; with one the first frame is requested when firstFrame <= lastFrame, and the handler is registered unless the resize step throws on a zero-sized canvas with a parent |
| Sequence.SequenceManager.Init | src/scroll-trough-story/sequenceManager/sequenceManager.ts:143-178 | takes the context, starts the chain at the first frame, then registers for `scrollUpdate` unless the resize step throws on a zero-sized canvas with a parent; a missing context stops it first |
| Sequence.SequenceManager.LoadFrame | src/scroll-trough-story/sequenceManager/sequenceManager.ts:60-76 | a frame out of range is ignored; any other is requested |
| Sequence.SequenceManager.LoadSequence | src/scroll-trough-story/sequenceManager/sequenceManager.ts:89-103 | the chain starts at the first desktop frame, and only if the range is not empty |
| Sequence.SequenceManager.OnFrameSettled | src/scroll-trough-story/sequenceManager/sequenceManager.ts:77-86 | a load requests the next frame and then appends the image; a failure ends the chain with an error naming the image and changes nothing else; the chain invariant is kept |
| Sequence.SequenceManager.RunLoadChain | src/scroll-trough-story/sequenceManager/sequenceManager.ts:55-94 | a chain fed a sequence of outcomes caches the leading loads cut at the range, in order, and ends complete, failed at the next frame, or waiting for it |
| Sequence.ResizeThrows | src/scroll-trough-story/sequenceManager/sequenceManager.ts:117-122 | the resize step in `init` throws exactly when the canvas has a parent element and a width or height of 0 |
| Sequence.FrameIndex | src/scroll-trough-story/sequenceManager/sequenceManager.ts:166-168 | the selected cache index `floor(end / 100 * percentage)`: the largest integer not above that product |
| Sequence.FrameToDraw | src/scroll-trough-story/sequenceManager/sequenceManager.ts:166-170 | a frame is drawn iff the cache has an entry at `floor(end / 100 * percentage)`, and that index is drawn |
| Sequence.FrameIndexEnds | src/scroll-trough-story/sequenceManager/sequenceManager.ts:166-168 | 0% selects index 0 and 100% selects index `sequenceEndNumber` |
| Sequence.FrameIndexMonotone | src/scroll-trough-story/sequenceManager/sequenceManager.ts:166-168 | the index grows with the percentage and stays within `0..end` |
| Sequence.NeverDrawsAtHundred | src/scroll-trough-story/sequenceManager/sequenceManager.ts:166-172 | with frames numbered from 1 or more, 100% never draws |
| Sequence.DrawnFrameNumber | src/scroll-trough-story/sequenceManager/sequenceManager.ts:166-171 | the image drawn for index i is frame `firstFrame + i` |
| Sequence.DemoFrameSelection | src/main.ts:16-17 | frames 1..255 at 50% select index 127, which a full cache holds and a ten-frame cache does not |
| Sequence.SequenceManager.Draw | src/scroll-trough-story/sequenceManager/sequenceManager.ts:180-185 | a missing image or context is the source's throw, returned as `false` with nothing drawn; otherwise the image is drawn to cover the canvas |
| Sequence.SequenceManager.OnScrollUpdate | src/scroll-trough-story/sequenceManager/sequenceManager.ts:164-173 | the frame the percentage selects is drawn if cached, and it is frame `start + index`; otherwise nothing is drawn; the cache is untouched |
| Story.CheckFramesStartAndEnd | src/scroll-trough-story/main.ts:89-99 | the bounds fail iff start >= end, and are true otherwise |
| Story.NegativeBoundsAccepted | src/scroll-trough-story/main.ts:89-99 | negative frame bounds pass the check whenever the start is below the end |
| Story.SingleFrameRejected | src/scroll-trough-story/main.ts:91-94 | a one-frame sequence is rejected |
| Story.InitFailure | src/scroll-trough-story/main.ts:101-121 | trigger lookup, then canvas lookup, then frame bounds: the first failing check is reported, and none only when all pass |
| Story.FirstFailureWins | src/scroll-trough-story/main.ts:102-121 | a failed lookup hides bad frame bounds |
| Story.DemoConfigurationAccepted | src/main.ts:16-17 | the demo's frames 1..255 pass the checks |
| Story.ScrollTroughStory.constructor | src/scroll-trough-story/main.ts:20-42 | creates a fresh emitter and runs `init` |
| Story.ScrollTroughStory.Init | src/scroll-trough-story/main.ts:101-138 | on any failure no observer or manager is built and the emitter is untouched; otherwise both are fresh, share the emitter and get the configured scrubs, URLs and frame bounds; the manager has taken the context if there is one, holds an empty cache and no draws, and has requested only the first frame (nothing without a context); the handler is registered iff the canvas has a context and a resize that does not throw |
| Story.ScrollTroughStory.OnScroll | src/scroll-trough-story/scrollObserver/scrollObserver.ts:97-103 | a scroll notification stores and emits the published percentage, then, if the handler is registered, appends a cover draw of the cache entry it selects; with no percentage published, no handler or no entry selected, the draws are unchanged; the cache and the registrations are untouched |

## Left out

- The DOM lookups in `getScrubTrigger` and `getCanvas` (`querySelector`,
  `instanceof`, their error messages). They are modelled only as a found or
  not-found input to the constructor.
- `console.error` logging. A logged and swallowed error becomes the
  `failure` field or leaves the state as it was.
- Real image loading (`Image`, `decoding`, `crossOrigin`, promises,
  `onload`/`onerror`). It becomes a sequence of load outcomes fed to
  `OnFrameSettled`. The order in which the browser settles requests needs no
  model, since only one request is pending at a time.
- A second `loadSequence` call while a chain runs would start a concurrent
  chain. The model keeps a single chain, so `LoadFrame` and `LoadSequence`
  require that no request is pending.
- The rejection thrown in the load chain's `catch` is never handled in the
  source. It is recorded in `loadError`.
- `IntersectionObserver` and the window `scroll`/`resize` listeners. Their
  notifications are the calls of `OnIntersection`, `GetElementPosition` and
  `OnResize`.
- The emitter's own implementation (`eventEmitter.ts` is not part of this
  model). Emitting and registering are appends to logs.
- `Story.ScrollTroughStory.OnScroll`: it assumes the emitter delivers an
  event to the registered handler at once. The intersection callback's
  events reach the handler the same way, and this is not composed.
- The observer is built before the manager, but the model cannot observe
  that order, because building the observer has no effect on the emitter.
- `SequenceManager.onResize`: resizing the canvas to its parent's size times
  `devicePixelRatio`, and saving and restoring its pixels with
  `getImageData`/`putImageData`. The canvas size is a constructor input that
  stays fixed. It stands for two sizes that differ in the source: the size
  `getImageData` reads before the resize, and the size drawn to after it,
  which the source has set to the parent's client size times
  `devicePixelRatio`. The model draws with the size found at lookup. Of this step only the throw of `getImageData` on an empty
  canvas during `init` is modelled (`Sequence.ResizeThrows`). The manager's
  window `resize` listener, which reruns the step later, is not modelled.
- `getImageUrl` (`new URL(..., import.meta.url)`), a foreign call that is
  never used.
- `isReducedAnimations`, whose branches are empty, and the
  `imageSmoothingEnabled` setting.
- The empty `destroy` methods and `types.ts`, which holds declarations only.
- The demo page `src/main.ts`. Its values appear only in the concrete lemmas.
  It imports `ScrollThroughStory`, a name the library does not export.
- `Sequence.FrameIndexEnds`: 100% selects `end` only in exact arithmetic.
  With doubles `end / 100 * 100` can round just below `end`, and the floor
  is then `end - 1`. For end 255, `(255/100)*100` is `254.99999999999997`.
  This holds for 69 of the values 1..1000.
- `Sequence.NeverDrawsAtHundred`: holds in exact arithmetic only. Under the
  same rounding, 100% can select `end - 1`, which a full cache holds. So the
  demo's frames 1..255 do draw at 100%.
- `JsString.Lower`: `toLowerCase` is modelled for ASCII letters only. Full
  Unicode lower-casing can change the length ("İ" becomes two code units) and
  depends on context (final sigma). Only U+0130 and U+212A lower-case to
  ASCII letters ("i" with a combining dot, and "k"). Neither is a letter of
  "top", "bottom" or "center", so the validator's verdicts are unaffected.
- JavaScript floating point (rounding, NaN, infinities, exponent notation in
  `toString` for huge numbers). Geometry uses exact reals, and a zero
  distance is handled by an explicit guard.
- `sequenceMobile` is declared but never filled in the source. The model
  keeps it empty.
- The element's end anchor word is read by the source and never used, so the
  model does not read it.
- Loaded images are given a positive size. A zero-sized image, which would
  lead to a division by zero in `ScaleToFill`, is not modelled.

## Findings

| source | as written | input that shows it | evidently intended | confidence | as-written member | corrected member |
|---|---|---|---|---|---|---|
| src/scroll-trough-story/scrollObserver/scrubs/verifyScrubs.ts:10-15 | `split(" ")` is destructured and `toLowerCase()` is called on the second field, which is `undefined` when the two words are separated by something other than a space | "top\tbottom": `split(/\W+/)` gives two fields, so the word check runs, and `split(" ")` gives one field, so the check throws a TypeError | a verdict of false for a scrub that is not a listed word, one space and a listed word | not executed | Scrubs.TabSeparatedScrubCrashes | Scrubs.VerifyScrubTotal |
