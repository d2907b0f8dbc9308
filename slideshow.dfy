/** The "about" story slider (script.js:161-219, 857-869): a current index
    shared by step navigation, go-to-slide and swipes, with the "active"
    class on one slide and one dot. */
module Slideshow {
  import opened Seqs
  import Gestures

  /** The index rule both navigations use: a candidate past the last slide
      snaps to the first, one before the first snaps to the last, anything in
      range is kept. This is not arithmetic modulo n. */
  function Wrap(i: int, n: nat): (r: int)
    requires n > 0
    ensures 0 <= r < n
    ensures 0 <= i < n ==> r == i
    ensures i >= n ==> r == 0
    ensures i < 0 ==> r == n - 1
  {
    if i >= n then 0 else if i < 0 then n - 1 else i
  }

  /** The index after changeSlide(direction) from index i. */
  function Step(i: int, direction: int, n: nat): (r: int)
    requires n > 0
    ensures 0 <= r < n
  {
    Wrap(i + direction, n)
  }

  /** k successive steps in the same direction. */
  function Repeat(i: int, direction: int, k: nat, n: nat): (r: int)
    requires n > 0
    ensures k > 0 ==> 0 <= r < n
  {
    if k == 0 then i else Step(Repeat(i, direction, k - 1, n), direction, n)
  }

  /** Overshooting by more than one slide lands on slide 0, where arithmetic
      modulo n would land elsewhere. */
  lemma OvershootIsNotModulo(i: int, direction: int, n: nat)
    requires n > 0 && n < i + direction < 2 * n
    ensures Step(i, direction, n) == 0
    ensures (i + direction) % n == i + direction - n != 0
  {
    var s := i + direction;
    assert s == 1 * n + (s - n);
  }

  /** Undershooting by more than one slide lands on the last slide, where
      arithmetic modulo n would land elsewhere. */
  lemma UndershootIsNotModulo(i: int, direction: int, n: nat)
    requires n > 0 && 0 - n < i + direction < -1
    ensures Step(i, direction, n) == n - 1
    ensures (i + direction) % n == i + direction + n != n - 1
  {
    var s := i + direction;
    assert s == (-1) * n + (s + n);
  }

  /** Going back one from the first slide shows the last one. */
  lemma BackFromFirst(n: nat)
    requires n > 0
    ensures Step(0, -1, n) == n - 1
  {
  }

  /** One step forward and one back undo each other, in either order. */
  lemma StepsCancel(i: int, n: nat)
    requires 0 <= i < n
    ensures Step(Step(i, 1, n), -1, n) == i
    ensures Step(Step(i, -1, n), 1, n) == i
  {
  }

  lemma {:induction false} ForwardInRange(i: int, k: nat, n: nat)
    requires 0 <= i && i + k < n
    ensures Repeat(i, 1, k, n) == i + k
  {
    if k > 0 { ForwardInRange(i, k - 1, n); }
  }

  lemma {:induction false} ForwardPastEnd(i: int, k: nat, n: nat)
    requires 0 <= i < n && k >= n - i
    ensures Repeat(i, 1, k, n) == Repeat(0, 1, k - (n - i), n)
    decreases k
  {
    if k == n - i {
      ForwardInRange(i, k - 1, n);
    } else {
      ForwardPastEnd(i, k - 1, n);
    }
  }

  /** n forward steps from any slide come back to that slide. */
  lemma ForwardCycle(i: int, n: nat)
    requires 0 <= i < n
    ensures Repeat(i, 1, n, n) == i
  {
    ForwardPastEnd(i, n, n);
    ForwardInRange(0, i, n);
  }

  lemma {:induction false} BackwardInRange(i: int, k: nat, n: nat)
    requires n > 0 && k <= i < n
    ensures Repeat(i, -1, k, n) == i - k
  {
    if k > 0 { BackwardInRange(i, k - 1, n); }
  }

  lemma {:induction false} BackwardPastStart(i: int, k: nat, n: nat)
    requires 0 <= i < n && k > i
    ensures Repeat(i, -1, k, n) == Repeat(n - 1, -1, k - i - 1, n)
    decreases k
  {
    if k == i + 1 {
      BackwardInRange(i, i, n);
    } else {
      BackwardPastStart(i, k - 1, n);
    }
  }

  /** n backward steps from any slide come back to that slide. */
  lemma BackwardCycle(i: int, n: nat)
    requires 0 <= i < n
    ensures Repeat(i, -1, n, n) == i
  {
    BackwardPastStart(i, n, n);
    BackwardInRange(n - 1, n - i - 1, n);
  }

  /** The slider. `idx` is the page's global slide index; slideActive and
      dotActive are the "active" classes of the slide and dot elements. The
      page has as many dots as slides. */
  class Slideshow {
    var idx: int
    const n: nat
    const slideActive: array<bool>
    const dotActive: array<bool>

    ghost predicate Valid()
      reads this
    {
      && slideActive.Length == n && dotActive.Length == n
      && slideActive != dotActive
      && (if n == 0 then idx == 0 else 0 <= idx < n)
    }

    /** The page as loaded: index 0 and the flags the markup starts with. */
    constructor (slides: seq<bool>, dots: seq<bool>)
      requires |slides| == |dots|
      ensures Valid() && n == |slides| && idx == 0
      ensures fresh(slideActive) && fresh(dotActive)
      ensures slideActive[..] == slides && dotActive[..] == dots
    {
      idx := 0;
      n := |slides|;
      slideActive := new bool[|slides|](i requires 0 <= i < |slides| => slides[i]);
      dotActive := new bool[|dots|](i requires 0 <= i < |dots| => dots[i]);
    }

    /** changeSlide(direction): clear the current slide and dot, step the
        index, mark the new slide and dot. With no slides nothing happens. */
    method ChangeSlide(direction: int)
      requires Valid()
      modifies this, slideActive, dotActive
      ensures Valid()
      ensures n == 0 ==> idx == old(idx) && slideActive[..] == old(slideActive[..]) && dotActive[..] == old(dotActive[..])
      ensures n > 0 ==> idx == Step(old(idx), direction, n)
      ensures n > 0 ==> slideActive[..] == old(slideActive[..])[old(idx) := false][idx := true]
      ensures n > 0 ==> dotActive[..] == old(dotActive[..])[old(idx) := false][idx := true]
      ensures OnlyAt(old(slideActive[..]), old(idx)) ==> OnlyAt(slideActive[..], idx)
      ensures OnlyAt(old(dotActive[..]), old(idx)) ==> OnlyAt(dotActive[..], idx)
    {
      if n == 0 {
        return;
      }
      slideActive[idx] := false;
      dotActive[idx] := false;
      idx := idx + direction;
      if idx >= n {
        idx := 0;
      } else if idx < 0 {
        idx := n - 1;
      }
      slideActive[idx] := true;
      dotActive[idx] := true;
    }

    /** currentSlide(k), the one-based go-to-slide: clear every slide and dot,
        take slide k - 1 with the same wrap rule, mark it. Whatever the flags
        were before, exactly that slide and dot are active afterwards. */
    method GoToSlide(k: int)
      requires Valid()
      modifies this, slideActive, dotActive
      ensures Valid()
      ensures n == 0 ==> idx == old(idx) && slideActive[..] == old(slideActive[..]) && dotActive[..] == old(dotActive[..])
      ensures n > 0 ==> idx == Wrap(k - 1, n)
      ensures n > 0 ==> OnlyAt(slideActive[..], idx) && OnlyAt(dotActive[..], idx)
    {
      if n == 0 {
        return;
      }
      var i := 0;
      while i < n
        invariant 0 <= i <= n
        invariant forall j :: 0 <= j < i ==> !slideActive[j]
      {
        slideActive[i] := false;
        i := i + 1;
      }
      i := 0;
      while i < n
        invariant 0 <= i <= n
        invariant forall j :: 0 <= j < n ==> !slideActive[j]
        invariant forall j :: 0 <= j < i ==> !dotActive[j]
      {
        dotActive[i] := false;
        i := i + 1;
      }
      idx := k - 1;
      if idx >= n {
        idx := 0;
      } else if idx < 0 {
        idx := n - 1;
      }
      slideActive[idx] := true;
      dotActive[idx] := true;
    }

    /** The slider's touch-end handler: a right swipe goes to the previous
        slide, a left swipe to the next, anything else changes nothing. */
    method HandleSliderSwipe(startX: int, startY: int, endX: int, endY: int)
      requires Valid()
      modifies this, slideActive, dotActive
      ensures Valid()
      ensures Gestures.Classify(endX - startX, endY - startY) == Gestures.NoSwipe ==>
                idx == old(idx) && slideActive[..] == old(slideActive[..]) && dotActive[..] == old(dotActive[..])
      ensures n > 0 ==> idx == Step(old(idx), Gestures.SliderStep(Gestures.Classify(endX - startX, endY - startY)), n)
      ensures n > 0 && Gestures.Classify(endX - startX, endY - startY) != Gestures.NoSwipe ==>
                slideActive[..] == old(slideActive[..])[old(idx) := false][idx := true]
                && dotActive[..] == old(dotActive[..])[old(idx) := false][idx := true]
      ensures OnlyAt(old(slideActive[..]), old(idx)) ==> OnlyAt(slideActive[..], idx)
      ensures OnlyAt(old(dotActive[..]), old(idx)) ==> OnlyAt(dotActive[..], idx)
    {
      var swipe := Gestures.Classify(endX - startX, endY - startY);
      match swipe
      case NoSwipe =>
      case SwipeRight => ChangeSlide(-1);
      case SwipeLeft => ChangeSlide(1);
    }
  }

  /** Starting from the page as loaded with the first slide and dot marked, n
      calls of changeSlide(1) come back to the first slide with exactly it
      marked. */
  method AdvanceFullCycle(slides: seq<bool>) returns (start: int, finish: int, oneActive: bool)
    requires |slides| > 0 && OnlyAt(slides, 0)
    ensures start == finish == 0 && oneActive
  {
    var show := new Slideshow(slides, slides);
    start := show.idx;
    var k := 0;
    while k < show.n
      invariant 0 <= k <= show.n
      invariant show.Valid() && show.n == |slides|
      invariant show.idx == Repeat(0, 1, k, show.n)
      invariant OnlyAt(show.slideActive[..], show.idx)
    {
      show.ChangeSlide(1);
      k := k + 1;
    }
    ForwardCycle(0, show.n);
    finish := show.idx;
    OnlyAtCountsOne(show.slideActive[..], show.idx);
    oneActive := CountTrue(show.slideActive[..]) == 1;
  }
}
