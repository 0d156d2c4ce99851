/**
 * The scroll observer: turns the trigger element's position in the
 * viewport into a scroll percentage and emits it as a `scrollUpdate` event.
 */
module Observer {
  import opened Wrappers
  import opened JsString
  import opened Channel
  import Scrubs

  /** The parts of `getBoundingClientRect()` the observer reads. */
  datatype Rect = Rect(top: real, bottom: real, height: real)

  /** One `IntersectionObserverEntry`. */
  datatype Entry = Entry(isIntersecting: bool)

  /** The field `i` of `s.split(" ")`, or None where JavaScript yields `undefined`. */
  function SpaceField(s: string, i: nat): Option<string> {
    var fields := SplitOn(s, ' ');
    if i < |fields| then Some(fields[i]) else None
  }

  /**
   * A viewport position named by a scrub word, compared case-sensitively;
   * a missing or unknown word keeps the default 0.
   */
  function ViewportAnchor(word: Option<string>, innerHeight: real): real {
    if word == Some("top") then 0.0
    else if word == Some("center") then innerHeight / 2.0
    else if word == Some("bottom") then innerHeight
    else 0.0
  }

  /** The element position named by the start scrub's first word; `rect.top` by default. */
  function ElementAnchor(word: string, rect: Rect): real {
    if word == "bottom" then rect.bottom
    else if word == "center" then rect.top - rect.height / 2.0
    else rect.top
  }

  /** The four positions the progress formula is computed from. */
  datatype Anchors = Anchors(viewportStart: real, viewportEnd: real, elementStart: real, elementHeight: real)

  /**
   * Anchor resolution: the viewport start and end come from the second word
   * of each scrub, the element start from the first word of the start
   * scrub. The end scrub's first word is read but never used.
   */
  function ResolveAnchors(scrubStart: string, scrubEnd: string, innerHeight: real, rect: Rect): Anchors {
    Anchors(ViewportAnchor(SpaceField(scrubStart, 1), innerHeight),
            ViewportAnchor(SpaceField(scrubEnd, 1), innerHeight),
            ElementAnchor(SplitOn(scrubStart, ' ')[0], rect),
            rect.height)
  }

  /** How far the element has passed the viewport start: `min(elementStart - viewportStart, 0)`. */
  function StartDelta(a: Anchors): (d: real)
    ensures d <= 0.0 && d <= a.elementStart - a.viewportStart
    ensures d == 0.0 || d == a.elementStart - a.viewportStart
  {
    if a.elementStart - a.viewportStart < 0.0 then a.elementStart - a.viewportStart else 0.0
  }

  /** The scroll distance from the start alignment to the end alignment. */
  function PixelsToScroll(a: Anchors): real {
    a.elementHeight + a.viewportStart + -a.viewportEnd
  }

  function Abs(x: real): real {
    if x < 0.0 then -x else x
  }

  /**
   * The percentage one scroll notification publishes, or None when the
   * progress `|startDelta / pixelsToScroll|` falls outside `[0, 1]`. A
   * zero distance is None: JavaScript gets NaN or an infinity there, and
   * both fail the range test.
   */
  function Progress(a: Anchors): (r: Option<real>)
    ensures r.Some? <==> PixelsToScroll(a) != 0.0 && -StartDelta(a) <= Abs(PixelsToScroll(a))
    ensures r.Some? ==> 0.0 <= r.value <= 100.0
    ensures r.Some? ==> r.value * Abs(PixelsToScroll(a)) == -StartDelta(a) * 100.0
  {
    var pixelsToScroll := PixelsToScroll(a);
    if pixelsToScroll == 0.0 then None
    else
      var progress := Abs(StartDelta(a) / pixelsToScroll);
      QuotientBound(StartDelta(a), pixelsToScroll);
      if 0.0 <= progress <= 1.0 then Some(progress * 100.0) else None
  }

  lemma QuotientBound(d: real, p: real)
    requires d <= 0.0 && p != 0.0
    ensures Abs(d / p) * Abs(p) == -d
    ensures Abs(d / p) <= 1.0 <==> -d <= Abs(p)
  {
    var q := d / p;
    var x, a := Abs(q), Abs(p);
    assert q * p == d;
    assert x * a == -d by {
      if p > 0.0 {
        assert q <= 0.0 && x == -q && a == p;
        assert -q * p == -(q * p);
      } else {
        assert q >= 0.0 && x == q && a == -p;
        assert q * -p == -(q * p);
      }
    }
    ScaleOrder(x, a);
  }

  /** For a positive `p`, `x <= 1` exactly when `x * p <= p`. */
  lemma ScaleOrder(x: real, p: real)
    requires p > 0.0
    ensures x <= 1.0 <==> x * p <= p
  {
    if x <= 1.0 {
      assert x * p <= 1.0 * p;
    } else {
      assert x * p > 1.0 * p;
    }
  }

  /** What a scroll notification publishes for the given scrubs and geometry. */
  function ScrollProgress(scrubStart: string, scrubEnd: string, innerHeight: real, rect: Rect): Option<real> {
    Progress(ResolveAnchors(scrubStart, scrubEnd, innerHeight, rect))
  }

  /** The events the intersection callback emits for a batch of entries. */
  function IntersectionMessages(entries: seq<Entry>): (ms: seq<Message>)
    ensures |ms| == |entries|
    ensures forall i :: 0 <= i < |entries| ==>
              ms[i] == ScrollUpdate(if entries[i].isIntersecting then 0.0 else 100.0)
  {
    seq(|entries|, i requires 0 <= i < |entries| =>
      ScrollUpdate(if entries[i].isIntersecting then 0.0 else 100.0))
  }

  // ---------------------------------------------------------------------
  // Properties of anchor resolution and of the progress formula

  /**
   * The viewport anchors of the three scrub words, and the default 0 for any
   * other word; with a non-negative viewport height every anchor lies in it,
   * in the order top, center, bottom.
   */
  lemma ViewportAnchorTable(word: Option<string>, innerHeight: real)
    ensures ViewportAnchor(Some("top"), innerHeight) == 0.0
    ensures ViewportAnchor(Some("center"), innerHeight) == innerHeight / 2.0
    ensures ViewportAnchor(Some("bottom"), innerHeight) == innerHeight
    ensures word !in {Some("top"), Some("center"), Some("bottom")} ==> ViewportAnchor(word, innerHeight) == 0.0
    ensures innerHeight >= 0.0 ==> 0.0 <= ViewportAnchor(word, innerHeight) <= innerHeight
  {
  }

  /**
   * The element anchor is `rect.top` unless the word is exactly "bottom" or
   * "center"; the "center" anchor lies half a height ABOVE the top edge.
   */
  lemma ElementAnchorTable(word: string, rect: Rect)
    ensures ElementAnchor("bottom", rect) == rect.bottom
    ensures ElementAnchor("center", rect) == rect.top - rect.height / 2.0
    ensures word != "bottom" && word != "center" ==> ElementAnchor(word, rect) == rect.top
    ensures rect.height > 0.0 ==> ElementAnchor("center", rect) < rect.top
  {
  }

  /**
   * Anchor words are compared case-sensitively, although the validator is
   * not: "top Bottom" passes validation, yet its viewport anchor is the
   * default 0 rather than the viewport bottom.
   */
  lemma AnchorWordsAreCaseSensitive(scrub: string, innerHeight: real)
    requires scrub == "top Bottom" && innerHeight > 0.0
    ensures Scrubs.VerifyScrub(scrub) == Success(true)
    ensures ViewportAnchor(SpaceField(scrub, 1), innerHeight) == 0.0
    ensures ViewportAnchor(Some("bottom"), innerHeight) == innerHeight
  {
    assert "top" + " " + "Bottom" == scrub;
    assert AllWord("top") && AllWord("Bottom");
    Scrubs.VerifyScrubOfPair("top", "Bottom");
    assert Lower("top") == "top";
    assert Lower("Bottom") == "bottom";
    assert "top" + [' '] + "Bottom" == scrub;
    SplitOnPair("top", "Bottom", ' ');
  }

  /** While the element's start anchor has not reached the viewport start, exactly 0 is published. */
  lemma ProgressZeroBeforeStart(a: Anchors)
    requires a.elementStart >= a.viewportStart
    requires PixelsToScroll(a) != 0.0
    ensures Progress(a) == Some(0.0)
  {
  }

  /** When the element has travelled the whole distance, exactly 100 is published. */
  lemma ProgressHundredAtEnd(a: Anchors)
    requires PixelsToScroll(a) != 0.0
    requires a.elementStart == a.viewportStart - Abs(PixelsToScroll(a))
    ensures Progress(a) == Some(100.0)
  {
    var p := Abs(PixelsToScroll(a));
    assert p > 0.0;
    assert StartDelta(a) == -p;
    var r := Progress(a);
    assert r.Some?;
    assert r.value * p == -StartDelta(a) * 100.0;
    Cancel(r.value, p);
  }

  lemma Cancel(x: real, p: real)
    requires p > 0.0 && x * p == p * 100.0
    ensures x == 100.0
  {
  }

  /** The element moved up the page by `d`. */
  function Shift(rect: Rect, d: real): Rect {
    Rect(rect.top - d, rect.bottom - d, rect.height)
  }

  /** Moving the element up moves its start anchor up by the same amount and nothing else. */
  lemma ShiftMovesElementStart(scrubStart: string, scrubEnd: string, innerHeight: real, rect: Rect, d: real)
    ensures var a := ResolveAnchors(scrubStart, scrubEnd, innerHeight, rect);
            ResolveAnchors(scrubStart, scrubEnd, innerHeight, Shift(rect, d)) ==
            a.(elementStart := a.elementStart - d)
  {
  }

  /**
   * Progress never decreases while the page scrolls forward: of two
   * published values, the one for the element further up is not smaller.
   */
  lemma {:induction false} ProgressMonotone(a: Anchors, d: real)
    requires d >= 0.0
    requires Progress(a).Some? && Progress(a.(elementStart := a.elementStart - d)).Some?
    ensures Progress(a).value <= Progress(a.(elementStart := a.elementStart - d)).value
  {
    var b := a.(elementStart := a.elementStart - d);
    assert PixelsToScroll(b) == PixelsToScroll(a);
    assert StartDelta(a) >= StartDelta(b);
    PercentOrder(Progress(a).value, Progress(b).value, -StartDelta(a), -StartDelta(b), Abs(PixelsToScroll(a)));
  }

  /** Percentages of one distance are ordered as the travels they measure. */
  lemma PercentOrder(x: real, y: real, u: real, v: real, p: real)
    requires p > 0.0 && u <= v
    requires x * p == u * 100.0 && y * p == v * 100.0
    ensures x <= y
  {
    assert (y - x) * p == (v - u) * 100.0;
  }

  /** The same, stated for scroll notifications of the observer. */
  lemma ScrollProgressMonotone(scrubStart: string, scrubEnd: string, innerHeight: real, rect: Rect, d: real)
    requires d >= 0.0
    requires ScrollProgress(scrubStart, scrubEnd, innerHeight, rect).Some?
    requires ScrollProgress(scrubStart, scrubEnd, innerHeight, Shift(rect, d)).Some?
    ensures ScrollProgress(scrubStart, scrubEnd, innerHeight, rect).value <=
            ScrollProgress(scrubStart, scrubEnd, innerHeight, Shift(rect, d)).value
  {
    ShiftMovesElementStart(scrubStart, scrubEnd, innerHeight, rect, d);
    ProgressMonotone(ResolveAnchors(scrubStart, scrubEnd, innerHeight, rect), d);
  }

  /**
   * With the demo's scrubs "top center" and "bottom bottom", the element's
   * bottom edge reaching the viewport bottom is the end of the range: the
   * distance is the element height minus half the viewport.
   */
  lemma DemoScrubs(scrubStart: string, scrubEnd: string, innerHeight: real, rect: Rect)
    requires scrubStart == "top center" && scrubEnd == "bottom bottom"
    ensures ResolveAnchors(scrubStart, scrubEnd, innerHeight, rect) ==
            Anchors(innerHeight / 2.0, innerHeight, rect.top, rect.height)
    ensures PixelsToScroll(ResolveAnchors(scrubStart, scrubEnd, innerHeight, rect)) ==
            rect.height - innerHeight / 2.0
  {
    assert "top" + [' '] + "center" == scrubStart;
    SplitOnPair("top", "center", ' ');
    assert SplitOn(scrubStart, ' ') == ["top", "center"];
    assert "bottom" + [' '] + "bottom" == scrubEnd;
    SplitOnPair("bottom", "bottom", ' ');
    assert SplitOn(scrubEnd, ' ') == ["bottom", "bottom"];
  }

  // ---------------------------------------------------------------------
  // The observer object

  class ScrollObserver {
    const scrubStart: string
    const scrubEnd: string
    /** The last published percentage. */
    var scrollPercentage: real
    const emitter: Emitter

    /**
     * The IntersectionObserver and the window listeners that `init`
     * installs are not state of the model: their notifications are the
     * calls of OnIntersection, GetElementPosition and OnResize.
     */
    constructor (scrubStart: string, scrubEnd: string, emitter: Emitter)
      ensures this.scrubStart == scrubStart && this.scrubEnd == scrubEnd
      ensures this.emitter == emitter
      ensures scrollPercentage == 0.0
    {
      this.scrubStart := scrubStart;
      this.scrubEnd := scrubEnd;
      this.emitter := emitter;
      scrollPercentage := 0.0;
    }

    /** The intersection callback: 0 for an entry that intersects, 100 for one that does not. */
    method OnIntersection(entries: seq<Entry>)
      modifies emitter
      ensures emitter.events == old(emitter.events) + IntersectionMessages(entries)
      ensures emitter.topics == old(emitter.topics)
    {
      for i := 0 to |entries|
        invariant emitter.events == old(emitter.events) + IntersectionMessages(entries[..i])
        invariant emitter.topics == old(emitter.topics)
      {
        if entries[i].isIntersecting {
          emitter.Emit(ScrollUpdate(0.0));
        } else {
          emitter.Emit(ScrollUpdate(100.0));
        }
        assert IntersectionMessages(entries[..i + 1]) ==
               IntersectionMessages(entries[..i]) + [IntersectionMessages(entries)[i]];
      }
      assert entries[..|entries|] == entries;
    }

    method SendScrollPercentage(percentage: real)
      modifies emitter
      ensures emitter.events == old(emitter.events) + [ScrollUpdate(percentage)]
      ensures emitter.topics == old(emitter.topics)
    {
      emitter.Emit(ScrollUpdate(percentage));
    }

    /**
     * The scroll listener: a value in range is stored and emitted; any
     * other leaves the stored percentage and the log as they were.
     */
    method GetElementPosition(innerHeight: real, rect: Rect)
      modifies this, emitter
      ensures var r := ScrollProgress(scrubStart, scrubEnd, innerHeight, rect);
              if r.Some? then
                scrollPercentage == r.value &&
                emitter.events == old(emitter.events) + [ScrollUpdate(r.value)]
              else
                scrollPercentage == old(scrollPercentage) && emitter.events == old(emitter.events)
      ensures 0.0 <= old(scrollPercentage) <= 100.0 ==> 0.0 <= scrollPercentage <= 100.0
      ensures emitter.topics == old(emitter.topics)
    {
      var startField := SpaceField(scrubStart, 1);
      var endField := SpaceField(scrubEnd, 1);
      var viewportStartPos := ViewportAnchor(startField, innerHeight);
      var viewportEndPos := ViewportAnchor(endField, innerHeight);
      var elementTop := ElementAnchor(SplitOn(scrubStart, ' ')[0], rect);
      var anchors := Anchors(viewportStartPos, viewportEndPos, elementTop, rect.height);
      var published := Progress(anchors);
      if published.Some? {
        scrollPercentage := published.value;
        SendScrollPercentage(scrollPercentage);
      }
    }

    /** The resize listener only names `getElementPosition` without calling it. */
    method OnResize()
      ensures scrollPercentage == old(scrollPercentage)
      ensures emitter.events == old(emitter.events)
    {
    }
  }
}
