/**
 * The pure decisions of the presentation controller: where "next" and
 * "previous" lead, which swipes and keys navigate, the counter text and the
 * slide titles. The stateful controller in module Presentation calls these.
 */
module Navigation {
  import opened Wrappers
  import opened Decimal

  // ---------------------------------------------------------------------
  // Next and previous index, with wrap-around
  // ---------------------------------------------------------------------

  /** The slide `nextSlide` goes to: one further, wrapping from the last to the first. */
  function NextIndex(current: nat, total: nat): (r: nat)
    requires current < total
    ensures r < total
    ensures r == (if current == total - 1 then 0 else current + 1)
  {
    (current + 1) % total
  }

  /** The slide `previousSlide` goes to: one back, wrapping from the first to the last. */
  function PreviousIndex(current: nat, total: nat): (r: nat)
    requires current < total
    ensures r < total
    ensures NextIndex(r, total) == current
  {
    if current == 0 then total - 1 else current - 1
  }

  /** Previous undoes next, and next undoes previous. */
  lemma PreviousUndoesNext(current: nat, total: nat)
    requires current < total
    ensures PreviousIndex(NextIndex(current, total), total) == current
    ensures NextIndex(PreviousIndex(current, total), total) == current
  {
  }

  /** `k` applications of next from `current`. */
  function NextIterate(current: nat, total: nat, k: nat): (r: nat)
    requires current < total
    ensures r < total
    decreases k
  {
    if k == 0 then current else NextIndex(NextIterate(current, total, k - 1), total)
  }

  /** `k` applications of previous from `current`. */
  function PreviousIterate(current: nat, total: nat, k: nat): (r: nat)
    requires current < total
    ensures r < total
    decreases k
  {
    if k == 0 then current else PreviousIndex(PreviousIterate(current, total, k - 1), total)
  }

  /** Applying next `a + b` times is applying it `a` times and then `b` more. */
  lemma {:induction false} NextIterateAdds(current: nat, total: nat, a: nat, b: nat)
    requires current < total
    ensures NextIterate(current, total, a + b) == NextIterate(NextIterate(current, total, a), total, b)
    decreases b
  {
    if b > 0 {
      NextIterateAdds(current, total, a, b - 1);
    }
  }

  /** As long as the end is not reached, `k` nexts advance by exactly `k`. */
  lemma {:induction false} NextIterateAdvances(current: nat, total: nat, k: nat)
    requires current + k < total
    ensures NextIterate(current, total, k) == current + k
    decreases k
  {
    if k > 0 {
      NextIterateAdvances(current, total, k - 1);
    }
  }

  /** `total` applications of next, from any slide, come back to that slide. */
  lemma NextFullCycle(current: nat, total: nat)
    requires current < total
    ensures NextIterate(current, total, total) == current
  {
    var toEnd := total - 1 - current;
    NextIterateAdvances(current, total, toEnd);
    assert NextIterate(current, total, toEnd + 1) == 0;
    NextIterateAdds(current, total, toEnd + 1, current);
    NextIterateAdvances(0, total, current);
  }

  /** Applying next once before `k` nexts is the same as once after them. */
  lemma {:induction false} NextIterateShift(current: nat, total: nat, k: nat)
    requires current < total
    ensures NextIterate(current, total, k + 1) == NextIterate(NextIndex(current, total), total, k)
    decreases k
  {
    if k > 0 {
      NextIterateShift(current, total, k - 1);
    }
  }

  /** `k` nexts undo `k` previouses. */
  lemma {:induction false} NextIterateUndoesPrevious(current: nat, total: nat, k: nat)
    requires current < total
    ensures NextIterate(PreviousIterate(current, total, k), total, k) == current
    decreases k
  {
    if k > 0 {
      var before := PreviousIterate(current, total, k - 1);
      NextIterateShift(PreviousIndex(before, total), total, k - 1);
      NextIterateUndoesPrevious(current, total, k - 1);
    }
  }

  /** `total` applications of previous, from any slide, come back to that slide. */
  lemma PreviousFullCycle(current: nat, total: nat)
    requires current < total
    ensures PreviousIterate(current, total, total) == current
  {
    var back := PreviousIterate(current, total, total);
    NextIterateUndoesPrevious(current, total, total);
    NextFullCycle(back, total);
  }

  // ---------------------------------------------------------------------
  // Swipe classification
  // ---------------------------------------------------------------------

  /** A swipe must move more than this many pixels horizontally. */
  const MinSwipeDistance: nat := 50

  datatype Swipe = NoSwipe | SwipePrevious | SwipeNext

  function Abs(x: int): nat {
    if x < 0 then -x else x
  }

  /**
   * The decision of `handleSwipe`: a touch that ends to the right of where it
   * started goes back, one that ends to the left goes forward, provided the
   * horizontal movement dominates and exceeds the minimum distance.
   */
  function ClassifySwipe(startX: int, startY: int, endX: int, endY: int): (r: Swipe)
    ensures r != NoSwipe <==>
      Abs(endX - startX) > Abs(endY - startY) && Abs(endX - startX) > MinSwipeDistance
    ensures r == SwipePrevious ==> endX > startX
    ensures r == SwipeNext ==> endX < startX
  {
    var deltaX := endX - startX;
    var deltaY := endY - startY;
    if Abs(deltaX) > Abs(deltaY) && Abs(deltaX) > MinSwipeDistance then
      if deltaX > 0 then SwipePrevious else SwipeNext
    else
      NoSwipe
  }

  function Reversed(s: Swipe): Swipe {
    match s
    case NoSwipe => NoSwipe
    case SwipePrevious => SwipeNext
    case SwipeNext => SwipePrevious
  }

  /** The same gesture made in the opposite direction navigates the opposite way. */
  lemma SwipeReversal(startX: int, startY: int, endX: int, endY: int)
    ensures ClassifySwipe(endX, endY, startX, startY) == Reversed(ClassifySwipe(startX, startY, endX, endY))
  {
  }

  /** Only the displacement matters, not where on the screen the gesture is made. */
  lemma SwipeTranslation(startX: int, startY: int, endX: int, endY: int, dx: int, dy: int)
    ensures ClassifySwipe(startX + dx, startY + dy, endX + dx, endY + dy)
         == ClassifySwipe(startX, startY, endX, endY)
  {
  }

  /** The threshold is strict: a purely horizontal move of exactly 50 pixels does nothing. */
  lemma SwipeThresholdIsStrict(startX: int, y: int)
    ensures ClassifySwipe(startX, y, startX + MinSwipeDistance, y) == NoSwipe
    ensures ClassifySwipe(startX, y, startX - MinSwipeDistance, y) == NoSwipe
    ensures ClassifySwipe(startX, y, startX + MinSwipeDistance + 1, y) == SwipePrevious
  {
  }

  // ---------------------------------------------------------------------
  // Keyboard mapping
  // ---------------------------------------------------------------------

  type DigitValue = d: nat | d <= 9

  /** The keys the controller distinguishes; every other key is `OtherKey`. */
  datatype Key =
    | ArrowRight | Space | Enter
    | ArrowLeft | Backspace
    | Home | End | Escape
    | Digit(d: DigitValue)
    | OtherKey

  datatype Command = GoNext | GoPrevious | JumpTo(index: nat) | ToggleFullscreen | NoCommand

  /** What `handleKeyboard` does with a key, for a presentation of `total` slides. */
  function KeyCommand(key: Key, total: nat): (r: Command)
    requires total > 0
    ensures r.JumpTo? ==> r.index < total
    ensures r == GoNext <==> key == ArrowRight || key == Space || key == Enter
    ensures r == GoPrevious <==> key == ArrowLeft || key == Backspace
    ensures r == ToggleFullscreen <==> key == Escape
    ensures key == Home ==> r == JumpTo(0)
    ensures key == End ==> r == JumpTo(total - 1)
    ensures key.Digit? ==> (r.JumpTo? <==> 1 <= key.d <= total)
    ensures key.Digit? && r.JumpTo? ==> r.index + 1 == key.d
    ensures r.JumpTo? ==> key == Home || key == End || key.Digit?
    ensures key == OtherKey ==> r == NoCommand
  {
    match key
    case ArrowRight | Space | Enter => GoNext
    case ArrowLeft | Backspace => GoPrevious
    case Home => JumpTo(0)
    case End => JumpTo(total - 1)
    case Escape => ToggleFullscreen
    case Digit(d) => if 1 <= d && d - 1 < total then JumpTo(d - 1) else NoCommand
    case OtherKey => NoCommand
  }

  /**
   * Concrete cases for fifteen slides: back from the first slide is the last,
   * forward is the second, key 5 jumps to index 4, key 9 is ignored with only
   * five slides; an 80 px leftward swipe with 10 px of vertical drift goes
   * forward, one with 90 px of vertical drift does nothing.
   */
  lemma NavigationExamples()
    ensures PreviousIndex(0, 15) == 14 && NextIndex(0, 15) == 1
    ensures KeyCommand(Digit(5), 15) == JumpTo(4) && KeyCommand(Digit(9), 5) == NoCommand
    ensures KeyCommand(Digit(0), 15) == NoCommand
    ensures ClassifySwipe(300, 200, 220, 210) == SwipeNext
    ensures ClassifySwipe(300, 200, 220, 290) == NoSwipe
  {
  }

  // ---------------------------------------------------------------------
  // Counter text
  // ---------------------------------------------------------------------

  /**
   * The counter shown for slide `current` (0-based) out of `total`; it
   * reads back as the 1-based position and the total. The read-back is
   * stated through a quantifier triggered on `ParseCounter`, so that the
   * parser is unfolded only in proofs that read a counter.
   */
  function CounterText(current: nat, total: nat): (r: string)
    ensures forall t {:trigger ParseCounter(t)} :: t == r ==> ParseCounter(t) == Some((current + 1, total))
  {
    CounterFormatReadsBack(current + 1, total);
    Digits(current + 1) + " / " + Digits(total)
  }

  /** Position of the first space in `s`, or `|s|` when there is none. */
  function IndexOfSpace(s: string): (k: nat)
    ensures k <= |s|
    ensures forall j :: 0 <= j < k ==> s[j] != ' '
    ensures k < |s| ==> s[k] == ' '
  {
    if s == [] || s[0] == ' ' then 0 else 1 + IndexOfSpace(s[1..])
  }

  /** Reads a counter text "{n} / {total}" back into its two numbers. */
  function ParseCounter(s: string): Option<(nat, nat)>
  {
    var k := IndexOfSpace(s);
    if 0 < k && k + 3 < |s| && s[k..k + 3] == " / " && AllDigits(s[..k]) && AllDigits(s[k + 3..])
    then Some((Value(s[..k]), Value(s[k + 3..])))
    else None
  }

  /** The text "{position} / {total}" names the two numbers, and nothing else. */
  lemma CounterFormatReadsBack(position: nat, total: nat)
    ensures ParseCounter(Digits(position) + " / " + Digits(total)) == Some((position, total))
  {
    var first, of := Digits(position), Digits(total);
    var s := first + " / " + of;
    var k := IndexOfSpace(s);
    assert s[|first|] == ' ';
    assert forall j :: 0 <= j < |first| ==> s[j] == first[j] && IsDigit(s[j]);
    assert k == |first|;
    assert s[..k] == first;
    assert s[k + 3..] == of;
    ValueOfDigits(position);
    ValueOfDigits(total);
  }

  /** Different slides show different counters. */
  lemma CounterTextInjective(i: nat, j: nat, total: nat)
    requires CounterText(i, total) == CounterText(j, total)
    ensures i == j
  {
    assert ParseCounter(CounterText(i, total)) == Some((i + 1, total));
  }

  // ---------------------------------------------------------------------
  // Slide titles
  // ---------------------------------------------------------------------

  const SlideTitles: seq<string> := [
    "Title Slide",
    "The Problem",
    "The Solution",
    "Why neurogent.ai?",
    "Our Core Capabilities",
    "Our Work Transition",
    "Healthcare Claims Automation",
    "AI-Powered Loan Advisor",
    "Voice AI Driver Onboarding",
    "Insurance Eligibility Verification",
    "Proven Impact",
    "Technology Stack",
    "Engagement Process",
    "Call to Action",
    "Thank You & Contact"
  ]

  /**
   * `getSlideTitle`: the table entry when there is a non-empty one (the
   * JavaScript `||` falls through on `undefined` and on ""), else "Slide n"
   * with the 1-based number.
   */
  function SlideTitle(index: nat): (r: string)
    ensures r != ""
    ensures index < |SlideTitles| ==> r == SlideTitles[index]
    ensures index >= |SlideTitles| ==>
      |r| > 6 && r[..6] == "Slide " && AllDigits(r[6..]) && Value(r[6..]) == index + 1
  {
    if index < |SlideTitles| && SlideTitles[index] != "" then SlideTitles[index]
    else
      ValueOfDigits(index + 1);
      assert ("Slide " + Digits(index + 1))[6..] == Digits(index + 1);
      "Slide " + Digits(index + 1)
  }
}
