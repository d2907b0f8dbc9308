/** Touch-swipe classification shared by the slideshow and the lifestyle
    gallery (script.js:846-869). Deltas are end minus start, in whole
    screen pixels. */
module Gestures {

  datatype Swipe = NoSwipe | SwipeLeft | SwipeRight

  /** A horizontal travel must exceed this many pixels to count. */
  const MinSwipeDistance: nat := 50

  function Abs(x: int): nat
  {
    if x < 0 then -x else x
  }

  /** A swipe is horizontal movement that dominates the vertical movement and
      exceeds the threshold; a positive horizontal delta is a right swipe. */
  function Classify(dx: int, dy: int): (s: Swipe)
    ensures s == SwipeRight ==> dx > MinSwipeDistance && dx > Abs(dy)
    ensures s == SwipeLeft ==> dx < -(MinSwipeDistance as int) && -dx > Abs(dy)
    ensures s != NoSwipe <==> Abs(dx) > Abs(dy) && Abs(dx) > MinSwipeDistance
    ensures s == SwipeRight <==> s != NoSwipe && dx > 0
  {
    if Abs(dx) > Abs(dy) && Abs(dx) > MinSwipeDistance then
      if dx > 0 then SwipeRight else SwipeLeft
    else NoSwipe
  }

  /** The slide step the slideshow takes for a swipe: a right swipe goes back
      one slide, a left swipe forward one; no swipe gives no step. */
  function SliderStep(s: Swipe): (step: int)
    ensures step == 0 <==> s == NoSwipe
    ensures step == -1 <==> s == SwipeRight
    ensures step == 1 <==> s == SwipeLeft
  {
    match s
    case NoSwipe => 0
    case SwipeRight => -1
    case SwipeLeft => 1
  }

  /** Mirroring the gesture horizontally swaps left and right and keeps "no
      swipe"; so the slide steps of mirrored gestures cancel. */
  lemma MirroredSwipe(dx: int, dy: int)
    ensures Classify(-dx, dy) == match Classify(dx, dy)
      case NoSwipe => NoSwipe
      case SwipeLeft => SwipeRight
      case SwipeRight => SwipeLeft
    ensures SliderStep(Classify(-dx, dy)) == -SliderStep(Classify(dx, dy))
  {
  }
}
