/**
 * The presentation controller: the current slide, the transition guard, the
 * per-slide `active` / `prev` classes, the two deferred steps a transition
 * schedules, the counter, lazy loading of the next slide, and the
 * `slidechange` events that the patched `goToSlide` dispatches together with
 * the accessibility listener that marks `aria-hidden` from them.
 */
module Presentation {
  import opened Wrappers
  import opened Navigation
  import opened LazyLoad
  import opened Decimal

  /** The number of slides the controller is built for. */
  const TotalSlides: nat := 15

  /** The detail of one `slidechange` event. */
  datatype SlideChange = SlideChange(currentSlide: nat, totalSlides: nat, slideTitle: string)

  class Controller {
    const totalSlides: nat
    var currentSlide: nat
    var isTransitioning: bool
    /** The text of the slide counter element. */
    var counterText: string
    /** The `active` and `prev` classes of each slide. */
    const active: array<bool>
    const prev: array<bool>
    /** The `aria-hidden` attribute of each slide ("true" as true). */
    const ariaHidden: array<bool>
    /** The lazily loaded elements inside each slide. */
    const lazy: seq<array<LazyElement>>
    /** The 50 ms callback of the last accepted transition, with its target, while not yet run. */
    var pendingReveal: Option<nat>
    /** Whether the 600 ms callback of the last accepted transition has yet to run. */
    var pendingSettle: bool
    /** Every `slidechange` event dispatched so far, oldest first. */
    var events: seq<SlideChange>

    /** Each slide has its own elements. */
    ghost predicate SlidesDistinct() {
      forall j, k :: 0 <= j < k < |lazy| ==> lazy[j] != lazy[k]
    }

    /**
     * The controller's invariant. While no transition is in flight exactly
     * the current slide is `active` and no slide is `prev`; the guard is up
     * exactly while the settle step is pending, and the reveal step, while
     * pending, targets the current slide, which is then not yet `active`.
     */
    ghost predicate Valid()
      reads this, active, prev
    {
      totalSlides == TotalSlides && currentSlide < totalSlides
      && active.Length == totalSlides && prev.Length == totalSlides
      && ariaHidden.Length == totalSlides && |lazy| == totalSlides
      && active != prev && ariaHidden != active && ariaHidden != prev
      && isTransitioning == pendingSettle
      && (pendingReveal.Some? ==> isTransitioning && pendingReveal.value == currentSlide)
      && (forall k :: 0 <= k < totalSlides ==> active[k] == (k == currentSlide && pendingReveal.None?))
      && (forall k :: 0 <= k < totalSlides && prev[k] ==> isTransitioning && k != currentSlide)
      && counterText == CounterText(currentSlide, totalSlides)
      && (forall e :: e in events ==> e.totalSlides == totalSlides && e.currentSlide < totalSlides)
    }

    /** The slide the last `slidechange` event named; slide 0 before any. */
    ghost function AnnouncedSlide(): nat
      reads this
    {
      if events == [] then 0 else events[|events| - 1].currentSlide
    }

    /** `Valid`, and `aria-hidden` is false on exactly the announced slide. */
    ghost predicate Accessible()
      reads this, active, prev, ariaHidden
    {
      Valid() && forall k :: 0 <= k < ariaHidden.Length ==> ariaHidden[k] == (k != AnnouncedSlide())
    }

    /** The navigation state (everything but events and `aria-hidden`) did not change. */
    twostate predicate Unmoved()
      reads this, active, prev, lazy
    {
      currentSlide == old(currentSlide) && isTransitioning == old(isTransitioning)
      && counterText == old(counterText)
      && pendingReveal == old(pendingReveal) && pendingSettle == old(pendingSettle)
      && active[..] == old(active[..]) && prev[..] == old(prev[..])
      && forall k :: 0 <= k < |lazy| ==> lazy[k][..] == old(lazy[k][..])
    }

    /**
     * An accepted transition to slide `i`: the guard is up, `i` is current,
     * the outgoing slide lost `active` and, moving forward, gained `prev`;
     * both deferred steps are pending, the counter shows `i`, and the slide
     * after `i`, and no other, has been preloaded.
     */
    twostate predicate MovedTo(i: nat)
      reads this, active, prev, lazy
    {
      var from := old(currentSlide);
      from < totalSlides && i < totalSlides && |lazy| == totalSlides
      && active.Length == totalSlides && prev.Length == totalSlides
      && currentSlide == i && isTransitioning
      && pendingReveal == Some(i) && pendingSettle
      && counterText == CounterText(i, totalSlides)
      && active[..] == old(active[..])[from := false]
      && prev[..] == (if i > from then old(prev[..])[from := true] else old(prev[..]))
      && var n := NextIndex(i, totalSlides);
         lazy[n][..] == Preloaded(old(lazy[n][..]))
         && forall k :: 0 <= k < |lazy| && k != n ==> lazy[k][..] == old(lazy[k][..])
    }

    /** One `slidechange` event for slide `i` was dispatched and `aria-hidden` follows it. */
    twostate predicate Dispatched(i: nat)
      reads this, ariaHidden
    {
      events == old(events) + [SlideChange(i, totalSlides, SlideTitle(i))]
      && forall k :: 0 <= k < ariaHidden.Length ==> ariaHidden[k] == (k != i)
    }

    /** Nothing observable changed at all. */
    twostate predicate Stayed()
      reads this, active, prev, ariaHidden, lazy
    {
      Unmoved() && events == old(events) && ariaHidden[..] == old(ariaHidden[..])
    }

    /** What the patched `goToSlide(i)` does: move unless the guard rejects, and dispatch in any case. */
    twostate predicate JumpEffect(i: nat)
      reads this, active, prev, ariaHidden, lazy
    {
      (if old(isTransitioning) || i == old(currentSlide) then Unmoved() else MovedTo(i))
      && Dispatched(i)
    }

    /** What `nextSlide` does: nothing while transitioning, else the patched `goToSlide` to the next slide. */
    twostate predicate NextSlideEffect()
      reads this, active, prev, ariaHidden, lazy
    {
      old(currentSlide) < totalSlides
      && if old(isTransitioning) then Stayed()
         else var n := NextIndex(old(currentSlide), totalSlides); MovedTo(n) && Dispatched(n)
    }

    /** What `previousSlide` does: nothing while transitioning, else the patched `goToSlide` to the previous slide. */
    twostate predicate PreviousSlideEffect()
      reads this, active, prev, ariaHidden, lazy
    {
      old(currentSlide) < totalSlides
      && if old(isTransitioning) then Stayed()
         else var p := PreviousIndex(old(currentSlide), totalSlides); MovedTo(p) && Dispatched(p)
    }

    /**
     * The constructor and `init`: slide 0 is current and (as the document's
     * markup has it) the only `active` slide; the counter is written and
     * slide 1 preloaded.
     */
    constructor (slides: seq<array<LazyElement>>)
      requires |slides| == TotalSlides
      requires forall j, k :: 0 <= j < k < |slides| ==> slides[j] != slides[k]
      modifies slides[1]
      ensures Valid() && SlidesDistinct() && lazy == slides
      ensures currentSlide == 0 && !isTransitioning && events == []
      ensures counterText == "1 / 15"
      ensures fresh(active) && fresh(prev) && fresh(ariaHidden)
      ensures slides[1][..] == Preloaded(old(slides[1][..]))
      ensures forall k :: 0 <= k < |slides| && k != 1 ==> slides[k][..] == old(slides[k][..])
    {
      totalSlides := TotalSlides;
      currentSlide := 0;
      isTransitioning := false;
      counterText := "";
      active := new bool[TotalSlides](k => k == 0);
      prev := new bool[TotalSlides](k => false);
      ariaHidden := new bool[TotalSlides](k => false);
      lazy := slides;
      pendingReveal := None;
      pendingSettle := false;
      events := [];
      new;
      UpdateSlideCounter();
      PreloadNextSlide();
    }

    /** `updateSlideCounter`: the counter shows the current slide. */
    method UpdateSlideCounter()
      modifies this`counterText
      ensures counterText == CounterText(currentSlide, totalSlides)
    {
      counterText := Digits(currentSlide + 1) + " / " + Digits(totalSlides);
    }

    /**
     * `preloadNextSlide`: every deferred element of the slide after the
     * current one gets its `src` from `data-src` and loses `data-src`;
     * every other slide is left alone.
     */
    method PreloadNextSlide()
      requires currentSlide < totalSlides && |lazy| == totalSlides && SlidesDistinct()
      modifies lazy[NextIndex(currentSlide, totalSlides)]
      ensures var n := NextIndex(currentSlide, totalSlides);
        lazy[n][..] == Preloaded(old(lazy[n][..]))
        && forall k :: 0 <= k < |lazy| && k != n ==> lazy[k][..] == old(lazy[k][..])
    {
      var n := NextIndex(currentSlide, totalSlides);
      var elements := lazy[n];
      for j := 0 to elements.Length
        invariant forall m :: 0 <= m < j ==> elements[m] == Load(old(elements[m]))
        invariant forall m :: j <= m < elements.Length ==> elements[m] == old(elements[m])
      {
        if elements[j].dataSrc.Some? && elements[j].dataSrc.value != "" {
          elements[j] := elements[j].(src := elements[j].dataSrc.value, dataSrc := None);
        }
      }
      assert elements[..] == Preloaded(old(elements[..]));
    }

    /**
     * The original `goToSlide`: rejected (no change at all) while a
     * transition is in flight or when `slideIndex` is already current;
     * otherwise a transition begins.
     */
    method GoToSlide(slideIndex: nat)
      requires Valid() && SlidesDistinct() && slideIndex < totalSlides
      modifies this, active, prev, lazy[NextIndex(slideIndex, totalSlides)]
      ensures Valid() && events == old(events)
      ensures old(isTransitioning) || slideIndex == old(currentSlide) ==> Unmoved()
      ensures !old(isTransitioning) && slideIndex != old(currentSlide) ==> MovedTo(slideIndex)
    {
      if isTransitioning || slideIndex == currentSlide {
        return;
      }
      BeginTransition(slideIndex);
    }

    /** The body of `goToSlide` once its guard has let the move through. */
    method BeginTransition(slideIndex: nat)
      requires Valid() && SlidesDistinct() && slideIndex < totalSlides
      requires !isTransitioning && slideIndex != currentSlide
      modifies this, active, prev, lazy[NextIndex(slideIndex, totalSlides)]
      ensures Valid() && events == old(events)
      ensures MovedTo(slideIndex)
    {
      var from := currentSlide;
      isTransitioning := true;
      active[from] := false;
      if slideIndex > from {
        prev[from] := true;
      }
      assert active[..] == old(active[..])[from := false];
      assert prev[..] == if slideIndex > from then old(prev[..])[from := true] else old(prev[..]);
      pendingReveal := Some(slideIndex);
      pendingSettle := true;
      currentSlide := slideIndex;
      UpdateSlideCounter();
      PreloadNextSlide();
    }

    /** The 50 ms step of a transition: its target becomes `active` and loses `prev`. */
    method Reveal()
      requires Valid() && pendingReveal.Some?
      modifies this`pendingReveal, active, prev
      ensures Valid() && pendingReveal == None
      ensures active[..] == old(active[..])[old(pendingReveal).value := true]
      ensures prev[..] == old(prev[..])[old(pendingReveal).value := false]
      ensures forall k :: 0 <= k < totalSlides ==> active[k] == (k == currentSlide)
    {
      var target := pendingReveal.value;
      active[target] := true;
      prev[target] := false;
      pendingReveal := None;
    }

    /**
     * The 600 ms step of a transition: `prev` is cleared on every slide and
     * the guard comes down. The 50 ms step of the same transition has run
     * before it.
     */
    method Settle()
      requires Valid() && pendingSettle && pendingReveal.None?
      modifies this`isTransitioning, this`pendingSettle, prev
      ensures Valid() && !isTransitioning && !pendingSettle
      ensures forall k :: 0 <= k < prev.Length ==> !prev[k]
    {
      for k := 0 to prev.Length
        invariant forall m :: 0 <= m < k ==> !prev[m]
      {
        prev[k] := false;
      }
      isTransitioning := false;
      pendingSettle := false;
    }

    /** The initial `aria-hidden` marking of `enableAccessibility`: only slide 0 is visible. */
    method EnableAccessibility()
      requires Valid()
      modifies ariaHidden
      ensures forall k :: 0 <= k < ariaHidden.Length ==> ariaHidden[k] == (k != 0)
      ensures events == [] ==> Accessible()
    {
      for k := 0 to ariaHidden.Length
        invariant forall m :: 0 <= m < k ==> ariaHidden[m] == (m != 0)
      {
        ariaHidden[k] := k != 0;
      }
    }

    /** The `slidechange` listener of `enableAccessibility`: only the event's slide is visible. */
    method OnSlideChange(detail: SlideChange)
      modifies ariaHidden
      ensures forall k :: 0 <= k < ariaHidden.Length ==> ariaHidden[k] == (k != detail.currentSlide)
    {
      for k := 0 to ariaHidden.Length
        invariant forall m :: 0 <= m < k ==> ariaHidden[m] == (m != detail.currentSlide)
      {
        ariaHidden[k] := k != detail.currentSlide;
      }
    }

    /**
     * `goToSlide` as patched after start-up: the original, then one
     * `slidechange` event for `slideIndex`, whether or not the original
     * accepted the move.
     */
    method PatchedGoToSlide(slideIndex: nat)
      requires Accessible() && SlidesDistinct() && slideIndex < totalSlides
      modifies this, active, prev, ariaHidden, lazy[NextIndex(slideIndex, totalSlides)]
      ensures Accessible() && AnnouncedSlide() == slideIndex
      ensures JumpEffect(slideIndex)
    {
      GoToSlide(slideIndex);
      var detail := SlideChange(slideIndex, totalSlides, SlideTitle(slideIndex));
      events := events + [detail];
      OnSlideChange(detail);
    }

    /** `nextSlide`, calling the patched `goToSlide`. */
    method NextSlide()
      requires Accessible() && SlidesDistinct()
      modifies this, active, prev, ariaHidden, lazy
      ensures Accessible()
      ensures NextSlideEffect()
    {
      if isTransitioning {
        return;
      }
      var next := NextIndex(currentSlide, totalSlides);
      PatchedGoToSlide(next);
    }

    /** `previousSlide`, calling the patched `goToSlide`. */
    method PreviousSlide()
      requires Accessible() && SlidesDistinct()
      modifies this, active, prev, ariaHidden, lazy
      ensures Accessible()
      ensures PreviousSlideEffect()
    {
      if isTransitioning {
        return;
      }
      var previous := PreviousIndex(currentSlide, totalSlides);
      PatchedGoToSlide(previous);
    }

    /** `handleSwipe`: a classified swipe runs `previousSlide` or `nextSlide`. */
    method HandleSwipe(startX: int, startY: int, endX: int, endY: int)
      requires Accessible() && SlidesDistinct()
      modifies this, active, prev, ariaHidden, lazy
      ensures Accessible()
      ensures match ClassifySwipe(startX, startY, endX, endY)
        case SwipePrevious => PreviousSlideEffect()
        case SwipeNext => NextSlideEffect()
        case NoSwipe => Stayed()
    {
      match ClassifySwipe(startX, startY, endX, endY)
      case SwipePrevious => PreviousSlide();
      case SwipeNext => NextSlide();
      case NoSwipe =>
    }

    /**
     * The navigation part of `handleKeyboard`. Escape toggles full-screen
     * mode in the host, which leaves the navigation state alone.
     */
    method HandleKeyboard(key: Key)
      requires Accessible() && SlidesDistinct()
      modifies this, active, prev, ariaHidden, lazy
      ensures Accessible()
      ensures match KeyCommand(key, totalSlides)
        case GoNext => NextSlideEffect()
        case GoPrevious => PreviousSlideEffect()
        case JumpTo(i) => JumpEffect(i)
        case ToggleFullscreen => Stayed()
        case NoCommand => Stayed()
    {
      match KeyCommand(key, totalSlides)
      case GoNext => NextSlide();
      case GoPrevious => PreviousSlide();
      case JumpTo(i) => PatchedGoToSlide(i);
      case ToggleFullscreen =>
      case NoCommand =>
    }
  }

  /**
   * A whole transition, with both deferred steps run: the target is the only
   * `active` slide, no slide is `prev`, the guard is down, and the counter
   * reads back as the target's 1-based number out of 15.
   */
  method TransitionAndSettle(c: Controller, i: nat)
    requires c.Accessible() && c.SlidesDistinct() && !c.isTransitioning
    requires i < c.totalSlides && i != c.currentSlide
    modifies c, c.active, c.prev, c.ariaHidden, c.lazy
    ensures c.Accessible() && c.currentSlide == i && !c.isTransitioning
    ensures forall k :: 0 <= k < c.totalSlides ==> c.active[k] == (k == i) && !c.prev[k] && c.ariaHidden[k] == (k != i)
    ensures ParseCounter(c.counterText) == Some((i + 1, TotalSlides))
  {
    c.PatchedGoToSlide(i);
    c.Reveal();
    c.Settle();
  }

  /**
   * Home pressed while a move to slide 3 is still in flight: the guard
   * rejects the jump, but the patched `goToSlide` dispatches its event
   * anyway, so `aria-hidden` shows slide 0 while slide 3 is current.
   */
  method JumpDuringTransition(c: Controller)
    requires c.Accessible() && c.SlidesDistinct() && !c.isTransitioning && c.currentSlide == 0
    modifies c, c.active, c.prev, c.ariaHidden, c.lazy
    ensures c.currentSlide == 3 && c.isTransitioning
    ensures !c.ariaHidden[0] && c.ariaHidden[3]
    ensures c.events == old(c.events) + [SlideChange(3, 15, "Why neurogent.ai?"), SlideChange(0, 15, "Title Slide")]
  {
    c.PatchedGoToSlide(3);
    c.HandleKeyboard(Home);
  }
}
