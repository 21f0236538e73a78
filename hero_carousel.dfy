/** The hero image carousel: a cyclic index over a fixed list of slides, with a
    parallel list of indicators. Each slide and each indicator carries one
    "active" flag (its `active` CSS class); navigation clears every flag and
    raises the pair at the new index. */
module HeroCarousel {

  import opened IntArith

  /** JavaScript's `%` on integers: the remainder of division truncated toward
      zero, so it takes the sign of the dividend (Dafny's own `%` is
      Euclidean and never negative). */
  function JsRemainder(a: int, b: int): (r: int)
    requires b > 0
    ensures a >= 0 ==> 0 <= r < b
    ensures a < 0 ==> -b < r <= 0
    ensures a >= 0 ==> r == a % b
    ensures (a - r) % b == 0
  {
    if a >= 0 then
      LessRemainderIsMultiple(a, b);
      a % b
    else
      NegatedMultiple(-a, b);
      -((-a) % b)
  }

  /** Index chosen by `nextSlide`: one forward, wrapping from the last slide
      back to the first. */
  function NextIndex(current: int, n: int): (r: int)
    requires 0 <= current < n
    ensures 0 <= r < n
    ensures r == if current == n - 1 then 0 else current + 1
  {
    JsRemainder(current + 1, n)
  }

  /** Index chosen by `prevSlide`: one back, wrapping from the first slide to
      the last; adding `n` first keeps the dividend non-negative, so the
      result is never -1. */
  function PrevIndex(current: int, n: int): (r: int)
    requires 0 <= current < n
    ensures 0 <= r < n
    ensures r == if current == 0 then n - 1 else current - 1
  {
    JsRemainder(current - 1 + n, n)
  }

  lemma PrevUndoesNext(current: int, n: int)
    requires 0 <= current < n
    ensures PrevIndex(NextIndex(current, n), n) == current
    ensures NextIndex(PrevIndex(current, n), n) == current
  {
  }

  /** The index after `k` calls of `nextSlide`. */
  function ForwardSteps(current: int, n: int, k: nat): (r: int)
    requires 0 <= current < n
    ensures 0 <= r < n
  {
    if k == 0 then current else NextIndex(ForwardSteps(current, n, k - 1), n)
  }

  /** The index after `k` calls of `prevSlide`. */
  function BackwardSteps(current: int, n: int, k: nat): (r: int)
    requires 0 <= current < n
    ensures 0 <= r < n
  {
    if k == 0 then current else PrevIndex(BackwardSteps(current, n, k - 1), n)
  }

  /** One forward step from the remainder of `x` lands on the remainder of
      `x + 1`. */
  lemma NextOfRemainder(x: int, n: int)
    requires n > 0
    ensures NextIndex(x % n, n) == (x + 1) % n
  {
    var q, m := x / n, x % n;
    if m == n - 1 {
      RemainderOfDecomposition(x + 1, n, q + 1, 0);
    } else {
      RemainderOfDecomposition(x + 1, n, q, m + 1);
    }
  }

  /** One backward step from the remainder of `x` lands on the remainder of
      `x - 1`. */
  lemma PrevOfRemainder(x: int, n: int)
    requires n > 0
    ensures PrevIndex(x % n, n) == (x - 1) % n
  {
    var q, m := x / n, x % n;
    if m == 0 {
      RemainderOfDecomposition(x - 1, n, q - 1, n - 1);
    } else {
      RemainderOfDecomposition(x - 1, n, q, m - 1);
    }
  }

  lemma {:induction false} ForwardStepsIsModular(current: int, n: int, k: nat)
    requires 0 <= current < n
    ensures ForwardSteps(current, n, k) == (current + k) % n
  {
    if k == 0 {
      RemainderOfDecomposition(current, n, 0, current);
    } else {
      ForwardStepsIsModular(current, n, k - 1);
      NextOfRemainder(current + k - 1, n);
    }
  }

  lemma {:induction false} BackwardStepsIsModular(current: int, n: int, k: nat)
    requires 0 <= current < n
    ensures BackwardSteps(current, n, k) == (current - k) % n
  {
    if k == 0 {
      RemainderOfDecomposition(current, n, 0, current);
    } else {
      BackwardStepsIsModular(current, n, k - 1);
      PrevOfRemainder(current - k + 1, n);
    }
  }

  /** `n` calls of `nextSlide`, or of `prevSlide`, come back to the slide
      they started from. */
  lemma FullCycleReturns(current: int, n: int)
    requires 0 <= current < n
    ensures ForwardSteps(current, n, n) == current
    ensures BackwardSteps(current, n, n) == current
  {
    ForwardStepsIsModular(current, n, n);
    BackwardStepsIsModular(current, n, n);
    RemainderOfDecomposition(current + n, n, 1, current);
    RemainderOfDecomposition(current - n, n, -1, current);
  }

  /** The inputs wired to the carousel: the two arrow buttons, a click on the
      indicator at `index`, a key press anywhere on the page, and a tick of
      the auto-play timer. */
  datatype Event =
    | PrevButton
    | NextButton
    | IndicatorClick(index: int)
    | KeyDown(key: string)
    | AutoPlayTick

  /** An event the page can deliver to a carousel of `n` slides: indicator
      listeners exist only for indices 0..n-1. */
  predicate Deliverable(e: Event, n: int)
  {
    e.IndicatorClick? ==> 0 <= e.index < n
  }

  /** Whether the event navigates at all (any key other than the two arrows
      is ignored). */
  predicate Navigates(e: Event)
  {
    !e.KeyDown? || e.key == "ArrowLeft" || e.key == "ArrowRight"
  }

  /** The slide index after the carousel handles `e`. */
  function Step(current: int, n: int, e: Event): (r: int)
    requires 0 <= current < n
    requires Deliverable(e, n)
    ensures 0 <= r < n
    ensures !Navigates(e) ==> r == current
  {
    match e
    case PrevButton => PrevIndex(current, n)
    case NextButton => NextIndex(current, n)
    case IndicatorClick(i) => i
    case KeyDown(key) =>
      if key == "ArrowLeft" then PrevIndex(current, n)
      else if key == "ArrowRight" then NextIndex(current, n)
      else current
    case AutoPlayTick => NextIndex(current, n)
  }

  predicate AllDeliverable(events: seq<Event>, n: int)
  {
    forall j :: 0 <= j < |events| ==> Deliverable(events[j], n)
  }

  /** The slide index after handling a whole sequence of events in order. */
  function Run(current: int, n: int, events: seq<Event>): (r: int)
    requires 0 <= current < n
    requires AllDeliverable(events, n)
    ensures 0 <= r < n
    decreases |events|
  {
    if events == [] then current
    else Run(Step(current, n, events[0]), n, events[1..])
  }

  /** Exactly one flag of `flags` is raised, the one at `i`. */
  ghost predicate OnlyActive(flags: seq<bool>, i: int)
  {
    forall j :: 0 <= j < |flags| ==> flags[j] == (j == i)
  }

  /** Number of raised flags. */
  function CountActive(flags: seq<bool>): (c: nat)
    ensures c <= |flags|
    ensures c == 0 <==> forall j :: 0 <= j < |flags| ==> !flags[j]
  {
    if flags == [] then 0
    else (if flags[0] then 1 else 0) + CountActive(flags[1..])
  }

  lemma {:induction false} OnlyActiveCountsOne(flags: seq<bool>, i: int)
    requires 0 <= i < |flags|
    requires OnlyActive(flags, i)
    ensures CountActive(flags) == 1
  {
    if i == 0 {
      assert forall j :: 0 <= j < |flags[1..]| ==> !flags[1..][j];
    } else {
      assert OnlyActive(flags[1..], i - 1);
      OnlyActiveCountsOne(flags[1..], i - 1);
    }
  }

  class Carousel {
    /** The `active` flag of each slide, in page order. */
    const slides: array<bool>
    /** The `active` flag of each indicator, parallel to `slides`. */
    const indicators: array<bool>
    var currentSlide: int

    ghost predicate Valid()
      reads this
    {
      slides != indicators &&
      slides.Length == indicators.Length &&
      0 <= currentSlide < slides.Length
    }

    /** Slide `i` and indicator `i` are the only active ones. */
    ghost predicate Shows(i: int)
      reads this, slides, indicators
    {
      OnlyActive(slides[..], i) && OnlyActive(indicators[..], i)
    }

    /** The carousel over the page's slides and indicators, whose initial
        `active` flags come from the markup; the index starts at 0. */
    constructor (slideFlags: seq<bool>, indicatorFlags: seq<bool>)
      requires |slideFlags| == |indicatorFlags| > 0
      ensures Valid() && fresh(slides) && fresh(indicators)
      ensures currentSlide == 0
      ensures slides[..] == slideFlags && indicators[..] == indicatorFlags
    {
      slides := new bool[|slideFlags|](j requires 0 <= j < |slideFlags| => slideFlags[j]);
      indicators := new bool[|indicatorFlags|](j requires 0 <= j < |indicatorFlags| => indicatorFlags[j]);
      currentSlide := 0;
    }

    method GoToSlide(index: int)
      requires Valid()
      requires 0 <= index < slides.Length
      modifies this, slides, indicators
      ensures Valid()
      ensures currentSlide == index
      ensures Shows(index)
      ensures CountActive(slides[..]) == 1 && CountActive(indicators[..]) == 1
    {
      var k := 0;
      while k < slides.Length
        invariant 0 <= k <= slides.Length
        invariant forall j :: 0 <= j < k ==> !slides[j]
      {
        slides[k] := false;
        k := k + 1;
      }
      k := 0;
      while k < indicators.Length
        invariant 0 <= k <= indicators.Length
        invariant forall j :: 0 <= j < slides.Length ==> !slides[j]
        invariant forall j :: 0 <= j < k ==> !indicators[j]
      {
        indicators[k] := false;
        k := k + 1;
      }
      slides[index] := true;
      indicators[index] := true;
      currentSlide := index;
      OnlyActiveCountsOne(slides[..], index);
      OnlyActiveCountsOne(indicators[..], index);
    }

    method NextSlide()
      requires Valid()
      modifies this, slides, indicators
      ensures Valid()
      ensures currentSlide == NextIndex(old(currentSlide), slides.Length)
      ensures Shows(currentSlide)
    {
      var nextIndex := JsRemainder(currentSlide + 1, slides.Length);
      GoToSlide(nextIndex);
    }

    method PrevSlide()
      requires Valid()
      modifies this, slides, indicators
      ensures Valid()
      ensures currentSlide == PrevIndex(old(currentSlide), slides.Length)
      ensures Shows(currentSlide)
    {
      var prevIndex := JsRemainder(currentSlide - 1 + slides.Length, slides.Length);
      GoToSlide(prevIndex);
    }

    /** The page-wide `keydown` listener. */
    method KeyDown(key: string)
      requires Valid()
      modifies this, slides, indicators
      ensures Valid()
      ensures key == "ArrowLeft" ==> currentSlide == PrevIndex(old(currentSlide), slides.Length) && Shows(currentSlide)
      ensures key == "ArrowRight" ==> currentSlide == NextIndex(old(currentSlide), slides.Length) && Shows(currentSlide)
      ensures key != "ArrowLeft" && key != "ArrowRight" ==>
        currentSlide == old(currentSlide) && slides[..] == old(slides[..]) && indicators[..] == old(indicators[..])
    {
      if key == "ArrowLeft" {
        PrevSlide();
      }
      if key == "ArrowRight" {
        NextSlide();
      }
    }

    /** Every listener the carousel installs, as one dispatch. */
    method Handle(e: Event)
      requires Valid()
      requires Deliverable(e, slides.Length)
      modifies this, slides, indicators
      ensures Valid()
      ensures currentSlide == Step(old(currentSlide), slides.Length, e)
      ensures Navigates(e) ==> Shows(currentSlide)
      ensures !Navigates(e) ==> slides[..] == old(slides[..]) && indicators[..] == old(indicators[..])
      ensures old(Shows(currentSlide)) ==> Shows(currentSlide)
    {
      match e
      case PrevButton => PrevSlide();
      case NextButton => NextSlide();
      case IndicatorClick(i) => GoToSlide(i);
      case KeyDown(key) => KeyDown(key);
      case AutoPlayTick => NextSlide();
    }
  }
}
