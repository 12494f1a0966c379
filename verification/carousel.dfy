/** The portfolio carousel: which slide `showSlide` selects, the active flags
    it sets on slides and indicators, the slide it preloads, and the buttons,
    keys and swipes that move it. Slides and indicators are counted, not
    represented. */
module Carousel {
  import opened Wrappers
  import opened Seqs

  /** Horizontal travel a touch must exceed to count as a swipe. */
  const MIN_SWIPE_DISTANCE: int := 50

  /** `showSlide(index)`: an index below zero selects the last slide, one past
      the end selects the first. With no slides the lookup of the selected
      slide's image fails, which is `None`. */
  function ShowSlide(index: int, slideCount: nat): (r: Option<nat>)
    ensures r.None? <==> slideCount == 0
    ensures r.Some? ==> r.value < slideCount
    ensures r.Some? && 0 <= index < slideCount ==> r.value == index
    ensures r.Some? && index < 0 ==> r.value == slideCount - 1
    ensures r.Some? && index >= slideCount ==> r.value == 0
  {
    if slideCount == 0 then None
    else if index < 0 then Some(slideCount - 1)
    else if index >= slideCount then Some(0)
    else Some(index)
  }

  /** `nextSlide`: one slide on, and from the last slide back to the first. */
  function NextSlide(current: nat, slideCount: nat): (r: Option<nat>)
    ensures r.None? <==> slideCount == 0
    ensures current + 1 < slideCount ==> r == Some(current + 1)
    ensures 0 < slideCount <= current + 1 ==> r == Some(0)
  {
    ShowSlide(current + 1, slideCount)
  }

  /** `prevSlide`: one slide back, and from the first slide to the last. */
  function PrevSlide(current: nat, slideCount: nat): (r: Option<nat>)
    ensures r.None? <==> slideCount == 0
    ensures 0 < current <= slideCount ==> r == Some(current - 1)
    ensures current == 0 && slideCount > 0 ==> r == Some(slideCount - 1)
  {
    ShowSlide(current - 1, slideCount)
  }

  /** A value below the modulus is its own remainder. */
  lemma ModBelow(a: int, n: int)
    requires 0 <= a < n
    ensures a % n == a
  {
  }

  /** The modulus leaves no remainder. */
  lemma ModSelf(n: int)
    requires n > 0
    ensures n % n == 0
  {
  }

  /** From a shown slide, next and previous are steps around a circle. */
  lemma NavigationIsModular(current: nat, slideCount: nat)
    requires current < slideCount
    ensures NextSlide(current, slideCount) == Some((current + 1) % slideCount)
    ensures PrevSlide(current, slideCount) == Some((current + slideCount - 1) % slideCount)
  {
    if current + 1 == slideCount {
      ModSelf(slideCount);
    } else {
      ModBelow(current + 1, slideCount);
    }
    if current == 0 {
      ModBelow(slideCount - 1, slideCount);
    } else {
      ModSelf(slideCount);
      assert current + slideCount - 1 == (current - 1) + slideCount;
      ModShiftByModulus(current - 1, slideCount);
    }
  }

  /** Adding the modulus does not change the remainder of a value below it. */
  lemma ModShiftByModulus(a: int, n: int)
    requires 0 <= a < n
    ensures (a + n) % n == a
  {
  }

  /** Previous undoes next, and next undoes previous. */
  lemma NextPrevInverse(current: nat, slideCount: nat)
    requires current < slideCount
    ensures PrevSlide(NextSlide(current, slideCount).value, slideCount) == Some(current)
    ensures NextSlide(PrevSlide(current, slideCount).value, slideCount) == Some(current)
  {
  }

  /** The slide reached after `k` presses of the next button (or autoplay ticks). */
  function Advance(current: nat, slideCount: nat, k: nat): (r: nat)
    requires current < slideCount
    ensures r < slideCount
    decreases k
  {
    if k == 0 then current else Advance(NextSlide(current, slideCount).value, slideCount, k - 1)
  }

  /** Short of the last slide, `k` steps forward land `k` slides on. */
  lemma {:induction false} AdvanceWithinRange(current: nat, slideCount: nat, k: nat)
    requires current + k < slideCount
    ensures Advance(current, slideCount, k) == current + k
    decreases k
  {
    if k > 0 {
      AdvanceWithinRange(current + 1, slideCount, k - 1);
    }
  }

  /** Stepping `a` then `b` times is stepping `a + b` times. */
  lemma {:induction false} AdvanceCompose(current: nat, slideCount: nat, a: nat, b: nat)
    requires current < slideCount
    ensures Advance(current, slideCount, a + b) == Advance(Advance(current, slideCount, a), slideCount, b)
    decreases a
  {
    if a > 0 {
      AdvanceCompose(NextSlide(current, slideCount).value, slideCount, a - 1, b);
    }
  }

  /** Autoplay cycles: after as many steps as there are slides the carousel is
      back where it started, having passed the last slide and wrapped to the
      first on the way. */
  lemma FullCycleReturns(current: nat, slideCount: nat)
    requires current < slideCount
    ensures Advance(current, slideCount, slideCount - current - 1) == slideCount - 1
    ensures Advance(current, slideCount, slideCount - current) == 0
    ensures Advance(current, slideCount, slideCount) == current
  {
    AdvanceWithinRange(current, slideCount, slideCount - current - 1);
    AdvanceCompose(current, slideCount, slideCount - current - 1, 1);
    AdvanceCompose(current, slideCount, slideCount - current, current);
    AdvanceWithinRange(0, slideCount, current);
  }

  /** What `showSlide` leaves on the page: the active flag of every slide and
      indicator, and the slide whose image is preloaded. */
  datatype SlideView = SlideView(current: nat, slideActive: seq<bool>, indicatorActive: seq<bool>, preload: nat)

  function Render(current: nat, slideCount: nat, indicatorCount: nat): (v: SlideView)
    requires current < slideCount
    ensures v.current == current
    ensures |v.slideActive| == slideCount && |v.indicatorActive| == indicatorCount
    ensures forall i :: 0 <= i < slideCount ==> (v.slideActive[i] <==> i == current)
    ensures forall i :: 0 <= i < indicatorCount ==> (v.indicatorActive[i] <==> i == current)
    ensures v.preload < slideCount
  {
    SlideView(current,
              seq(slideCount, i => i == current),
              seq(indicatorCount, i => i == current),
              (current + 1) % slideCount)
  }

  function IsOn(b: bool): bool { b }

  /** Exactly one slide is active; exactly one indicator is when there is one
      for the current slide, none otherwise. */
  lemma ExactlyOneActive(current: nat, slideCount: nat, indicatorCount: nat)
    requires current < slideCount
    ensures Count(IsOn, Render(current, slideCount, indicatorCount).slideActive) == 1
    ensures Count(IsOn, Render(current, slideCount, indicatorCount).indicatorActive) ==
            if current < indicatorCount then 1 else 0
  {
    var v := Render(current, slideCount, indicatorCount);
    CountExactlyOne(IsOn, v.slideActive, current);
    if current < indicatorCount {
      CountExactlyOne(IsOn, v.indicatorActive, current);
    } else {
      FilterDropsAll(IsOn, v.indicatorActive);
    }
  }

  /** The preloaded slide is the one the next button would show, and differs
      from the current one whenever there are two slides or more. */
  lemma PreloadIsNext(current: nat, slideCount: nat, indicatorCount: nat)
    requires current < slideCount
    ensures Some(Render(current, slideCount, indicatorCount).preload) == NextSlide(current, slideCount)
    ensures slideCount >= 2 ==> Render(current, slideCount, indicatorCount).preload != current
  {
    NavigationIsModular(current, slideCount);
  }

  /** What a completed touch does. */
  datatype SwipeAction = NoChange | ToPrevious | ToNext

  /** `handleSwipe`: a rightward swipe longer than the threshold goes back, a
      leftward one goes forward, a shorter one does nothing. */
  function HandleSwipe(touchStartX: int, touchEndX: int): (a: SwipeAction)
    ensures a == ToPrevious <==> touchEndX - touchStartX > MIN_SWIPE_DISTANCE
    ensures a == ToNext <==> touchStartX - touchEndX > MIN_SWIPE_DISTANCE
    ensures a == NoChange <==> -MIN_SWIPE_DISTANCE <= touchEndX - touchStartX <= MIN_SWIPE_DISTANCE
  {
    var swipeDistance := touchEndX - touchStartX;
    var magnitude := if swipeDistance < 0 then -swipeDistance else swipeDistance;
    if magnitude > MIN_SWIPE_DISTANCE then
      if swipeDistance > 0 then ToPrevious else ToNext
    else NoChange
  }

  /** Swiping back along the same track does the opposite. */
  lemma SwipeMirror(touchStartX: int, touchEndX: int)
    ensures HandleSwipe(touchStartX, touchEndX) == ToPrevious <==> HandleSwipe(touchEndX, touchStartX) == ToNext
    ensures HandleSwipe(touchStartX, touchEndX) == NoChange <==> HandleSwipe(touchEndX, touchStartX) == NoChange
  {
  }

  /** The slide shown after a swipe. */
  function ApplySwipe(current: nat, slideCount: nat, touchStartX: int, touchEndX: int): (r: nat)
    requires current < slideCount
    ensures r < slideCount
    ensures HandleSwipe(touchStartX, touchEndX) == NoChange ==> r == current
    ensures HandleSwipe(touchStartX, touchEndX) == ToPrevious ==> Some(r) == PrevSlide(current, slideCount)
    ensures HandleSwipe(touchStartX, touchEndX) == ToNext ==> Some(r) == NextSlide(current, slideCount)
  {
    match HandleSwipe(touchStartX, touchEndX)
    case NoChange => current
    case ToPrevious => PrevSlide(current, slideCount).value
    case ToNext => NextSlide(current, slideCount).value
  }

  /** A swipe and the swipe back along the same track cancel out. */
  lemma SwipeThereAndBack(current: nat, slideCount: nat, touchStartX: int, touchEndX: int)
    requires current < slideCount
    ensures ApplySwipe(ApplySwipe(current, slideCount, touchStartX, touchEndX), slideCount, touchEndX, touchStartX)
            == current
  {
    SwipeMirror(touchStartX, touchEndX);
    NextPrevInverse(current, slideCount);
  }

  /** The carousel's key handler: the left and right arrows step, other keys
      do nothing. */
  function KeyDown(current: nat, slideCount: nat, key: string): (r: nat)
    requires current < slideCount
    ensures r < slideCount
    ensures key == "ArrowLeft" ==> Some(r) == PrevSlide(current, slideCount)
    ensures key == "ArrowRight" ==> Some(r) == NextSlide(current, slideCount)
    ensures key != "ArrowLeft" && key != "ArrowRight" ==> r == current
  {
    if key == "ArrowLeft" then PrevSlide(current, slideCount).value
    else if key == "ArrowRight" then NextSlide(current, slideCount).value
    else current
  }
}
