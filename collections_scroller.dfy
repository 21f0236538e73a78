/** The collections strip: a track of cards panned left and right one card
    width at a time. The offset is a signed pixel distance, 0 when the first
    card is at the left edge and negative once the track has moved left. */
module CollectionsScroller {

  import opened IntArith

  /** The gap between two cards, added to the first card's rendered width to
      give the width of one step. */
  const Gap := 32

  /** The number of cards the strip shows at once. */
  const Window := 3

  /** The offset the `next` button must stay strictly above to move:
      -(cardWidth * (cardCount - 3)). */
  function NextLimit(w: int, count: int): (limit: int)
  {
    -(w * (count - Window))
  }

  /** The `prev` click: one card width to the right while the track is left
      of its start; nothing otherwise. */
  function PrevPosition(pos: int, w: int): (r: int)
    requires w > 0
    ensures r == pos || r == pos + w
    ensures r != pos <==> pos < 0
  {
    if pos < 0 then pos + w else pos
  }

  /** The `next` click: one card width to the left while the track is right
      of the limit; nothing otherwise. */
  function NextPosition(pos: int, w: int, count: int): (r: int)
    requires w > 0
    ensures r == pos || r == pos - w
    ensures r != pos <==> pos > NextLimit(w, count)
  {
    if pos > NextLimit(w, count) then pos - w else pos
  }

  /** Opacity of the `prev` button: full (true) or half (false). The button
      is drawn enabled exactly when a click on it would move the track. */
  function PrevEnabled(pos: int, w: int): (on: bool)
    requires w > 0
    ensures on <==> PrevPosition(pos, w) != pos
  {
    pos < 0
  }

  /** Opacity of the `next` button: full (true) or half (false). The button
      is drawn enabled exactly when a click on it would move the track. */
  function NextEnabled(pos: int, w: int, count: int): (on: bool)
    requires w > 0
    ensures on <==> NextPosition(pos, w, count) != pos
  {
    pos > NextLimit(w, count)
  }

  /** How many whole cards the track can pan left: all but the visible three,
      or none at all for a strip of three cards or fewer. */
  function MaxSteps(count: int): (steps: nat)
  {
    if count > Window then count - Window else 0
  }

  /** The offsets the track can take: whole multiples of the card width from
      0 down to -(cardWidth * MaxSteps). */
  predicate Reachable(pos: int, w: int, count: int)
    requires w > 0
  {
    pos % w == 0 && -(w * MaxSteps(count)) <= pos <= 0
  }

  lemma StartReachable(w: int, count: int)
    requires w > 0
    ensures Reachable(0, w, count)
  {
  }

  lemma NextKeepsReachable(pos: int, w: int, count: int)
    requires w > 0 && Reachable(pos, w, count)
    ensures Reachable(NextPosition(pos, w, count), w, count)
  {
    if pos > NextLimit(w, count) {
      var q := pos / w;
      assert pos == w * q;
      MultiplyCancels(w, Window - count, q);
      assert count > Window by {
        if count <= Window {
          MultiplyMonotone(w, q, 0);
          MultiplyMonotone(w, 0, Window - count);
        }
      }
      RemainderOfDecomposition(pos - w, w, q - 1, 0);
      MultiplyMonotone(w, Window - count, q - 1);
    }
  }

  lemma PrevKeepsReachable(pos: int, w: int, count: int)
    requires w > 0 && Reachable(pos, w, count)
    ensures Reachable(PrevPosition(pos, w), w, count)
  {
    if pos < 0 {
      var q := pos / w;
      assert pos == w * q;
      MultiplyCancels(w, q, 0);
      RemainderOfDecomposition(pos + w, w, q + 1, 0);
      MultiplyMonotone(w, q + 1, 0);
    }
  }

  /** On a reachable offset, `prev` is enabled exactly when at least one
      whole card is hidden on the left, and `next` exactly when one more card
      can be panned in on the right. */
  lemma ButtonsOnReachable(pos: int, w: int, count: int)
    requires w > 0 && Reachable(pos, w, count)
    ensures PrevEnabled(pos, w) <==> pos <= -w
    ensures NextEnabled(pos, w, count) <==> pos - w >= -(w * MaxSteps(count))
  {
    var q := pos / w;
    assert pos == w * q;
    if pos < 0 {
      MultiplyCancels(w, q, 0);
      MultiplyMonotone(w, q, -1);
    }
    NextKeepsReachable(pos, w, count);
    if pos - w >= -(w * MaxSteps(count)) {
      MultiplyCancels(w, 0, MaxSteps(count));
    }
  }

  /** A `prev` click undoes a `next` click that moved the track, and a `next`
      click undoes a `prev` click that moved it. */
  lemma ClicksUndoEachOther(pos: int, w: int, count: int)
    requires w > 0 && Reachable(pos, w, count)
    ensures NextPosition(pos, w, count) != pos ==> PrevPosition(NextPosition(pos, w, count), w) == pos
    ensures PrevPosition(pos, w) != pos ==> NextPosition(PrevPosition(pos, w), w, count) == pos
  {
  }

  /** With three cards or fewer the track never moves. */
  lemma ShortStripIsFixed(pos: int, w: int, count: int)
    requires w > 0 && count <= Window && Reachable(pos, w, count)
    ensures pos == 0
    ensures NextPosition(pos, w, count) == pos && PrevPosition(pos, w) == pos
    ensures !PrevEnabled(pos, w) && !NextEnabled(pos, w, count)
  {
  }

  datatype Click = Prev | Next

  /** The offset after a sequence of button clicks: each click moves the
      track by at most one card width. */
  function AfterClicks(pos: int, w: int, count: int, clicks: seq<Click>): (r: int)
    requires w > 0
    ensures pos - w * |clicks| <= r <= pos + w * |clicks|
    decreases |clicks|
  {
    if clicks == [] then pos
    else
      var moved := if clicks[0].Prev? then PrevPosition(pos, w) else NextPosition(pos, w, count);
      var r := AfterClicks(moved, w, count, clicks[1..]);
      assert w * |clicks| == w * |clicks[1..]| + w;
      r
  }

  /** Whatever the clicks, the offset stays a whole number of cards within
      [-(cardWidth * (cardCount - 3)), 0]. */
  lemma {:induction false} ClicksStayReachable(pos: int, w: int, count: int, clicks: seq<Click>)
    requires w > 0 && Reachable(pos, w, count)
    ensures Reachable(AfterClicks(pos, w, count, clicks), w, count)
    decreases |clicks|
  {
    if clicks != [] {
      PrevKeepsReachable(pos, w, count);
      NextKeepsReachable(pos, w, count);
      var moved := if clicks[0].Prev? then PrevPosition(pos, w) else NextPosition(pos, w, count);
      ClicksStayReachable(moved, w, count, clicks[1..]);
    }
  }

  /** The offset after `k` clicks of `next`: the track only ever moves left. */
  function NextTimes(pos: int, w: int, count: int, k: nat): (r: int)
    requires w > 0
    ensures r <= pos
  {
    if k == 0 then pos else NextPosition(NextTimes(pos, w, count, k - 1), w, count)
  }

  /** From the start, `k` clicks of `next` pan `k` cards, up to the last
      reachable offset, where further clicks change nothing. */
  lemma {:induction false} NextTimesFromStart(w: int, count: int, k: nat)
    requires w > 0
    ensures NextTimes(0, w, count, k) == -(w * (if k <= MaxSteps(count) then k else MaxSteps(count)))
  {
    if k > 0 {
      NextTimesFromStart(w, count, k - 1);
      var j := if k - 1 <= MaxSteps(count) then k - 1 else MaxSteps(count);
      if j < MaxSteps(count) {
        MultiplyMonotone(w, j + 1, count - Window);
        assert -(w * j) - w == -(w * (j + 1));
      } else if count <= Window {
        MultiplyMonotone(w, 0, Window - count);
      }
    }
  }

  /** Six cards 300 pixels apart: 0, -300, -600, -900, and a fourth `next`
      stays at -900. */
  lemma SixCardExample()
    ensures NextTimes(0, 300, 6, 1) == -300
    ensures NextTimes(0, 300, 6, 2) == -600
    ensures NextTimes(0, 300, 6, 3) == -900
    ensures NextTimes(0, 300, 6, 4) == -900
  {
  }

  /** The `resize` listener as written: the offset is scaled by the ratio of
      the new step width to the width captured when the strip was set up,
      and that captured width, which the click guards keep using, is never
      updated. */
  function ResizedAsWritten(pos: real, capturedWidth: int, newWidth: int): (r: real)
    requires capturedWidth > 0
    ensures r * (capturedWidth as real) == pos * (newWidth as real)
  {
    pos * (newWidth as real / capturedWidth as real)
  }

  /** One resize from a 300-pixel to a 250-pixel step, one card in, leaves the
      offset at -250: no whole number of the 300-pixel steps the buttons still
      take. A `prev` click then moves the track to +50, past its start, and the
      same resize event again shrinks the offset further although the width
      no longer changes. */
  lemma ResizeBreaksBounds()
    ensures ResizedAsWritten(-300.0, 300, 250) == -250.0
    ensures !Reachable(-250, 300, 6)
    ensures PrevPosition(-250, 300) == 50
    ensures ResizedAsWritten(-250.0, 300, 250) != -250.0
  {
  }

  /** The resize the design intends: keep the number of whole cards panned and
      derive the offset from the new step width. */
  function ResizedByCard(pos: int, oldWidth: int, newWidth: int): (r: int)
    requires oldWidth > 0 && newWidth > 0
  {
    -(newWidth * ((-pos) / oldWidth))
  }

  /** A reachable offset is `k` whole cards to the left, for the `k` that
      the card-preserving resize reads off it. */
  lemma CardsPanned(pos: int, w: int, count: int)
    requires w > 0 && Reachable(pos, w, count)
    ensures 0 <= (-pos) / w <= MaxSteps(count)
    ensures pos == -(w * ((-pos) / w))
  {
    var q := pos / w;
    assert pos == w * q;
    RemainderOfDecomposition(-pos, w, -q, 0);
    if q > 0 {
      MultiplyMonotone(w, 1, q);
    }
    if -q > MaxSteps(count) {
      MultiplyMonotone(w, MaxSteps(count) + 1, -q);
    }
  }

  /** The offset `k` whole cards to the left is reachable for any `k` up to
      MaxSteps, and each button's state depends on `k` alone. */
  lemma WholeCardsOffset(k: int, w: int, count: int)
    requires w > 0 && 0 <= k <= MaxSteps(count)
    ensures Reachable(-(w * k), w, count)
    ensures PrevEnabled(-(w * k), w) <==> k > 0
    ensures NextEnabled(-(w * k), w, count) <==> k < count - Window
  {
    MultiplyMonotone(w, 0, k);
    MultiplyMonotone(w, k, MaxSteps(count));
    RemainderOfDecomposition(-(w * k), w, -k, 0);
    if k > 0 {
      MultiplyMonotone(w, 1, k);
    }
    if k < count - Window {
      MultiplyMonotone(w, k + 1, count - Window);
    } else {
      MultiplyMonotone(w, count - Window, k);
    }
  }

  /** k cards of the new width are the k cards of the old width scaled by the
      ratio of the widths. */
  lemma ScaledCards(k: int, oldWidth: int, newWidth: int)
    requires oldWidth > 0 && newWidth > 0
    ensures (-(newWidth * k)) as real * (oldWidth as real) == (-(oldWidth * k)) as real * (newWidth as real)
  {
  }

  /** On a reachable offset the card-preserving resize scales the offset by
      exactly the ratio the source uses, yields an offset reachable with the
      new step width, and leaves both buttons as they were drawn. */
  lemma ResizeKeepsInvariant(pos: int, oldWidth: int, newWidth: int, count: int)
    requires oldWidth > 0 && newWidth > 0 && Reachable(pos, oldWidth, count)
    ensures ResizedByCard(pos, oldWidth, newWidth) as real == ResizedAsWritten(pos as real, oldWidth, newWidth)
    ensures Reachable(ResizedByCard(pos, oldWidth, newWidth), newWidth, count)
    ensures PrevEnabled(ResizedByCard(pos, oldWidth, newWidth), newWidth) == PrevEnabled(pos, oldWidth)
    ensures NextEnabled(ResizedByCard(pos, oldWidth, newWidth), newWidth, count) == NextEnabled(pos, oldWidth, count)
  {
    CardsPanned(pos, oldWidth, count);
    var k := (-pos) / oldWidth;
    WholeCardsOffset(k, oldWidth, count);
    WholeCardsOffset(k, newWidth, count);
    ScaledCards(k, oldWidth, newWidth);
    var r := ResizedByCard(pos, oldWidth, newWidth);
    var scaled := ResizedAsWritten(pos as real, oldWidth, newWidth);
    assert r as real * (oldWidth as real) == scaled * (oldWidth as real);
  }

  class Strip {
    /** The first card's rendered width plus the gap. */
    var cardWidth: int
    const cardCount: int
    var currentPosition: int
    /** Opacity of the `prev` button: '1' (true) or '0.5' (false). */
    var prevOpaque: bool
    /** Opacity of the `next` button: '1' (true) or '0.5' (false). */
    var nextOpaque: bool

    ghost predicate Valid()
      reads this
    {
      cardWidth > 0 &&
      Reachable(currentPosition, cardWidth, cardCount) &&
      prevOpaque == PrevEnabled(currentPosition, cardWidth) &&
      nextOpaque == NextEnabled(currentPosition, cardWidth, cardCount)
    }

    /** The strip over `cardCount` cards, the first of which is
        `firstCardWidth` pixels wide; the offset starts at 0 and the buttons
        are drawn once. */
    constructor (firstCardWidth: nat, cardCount: nat)
      requires cardCount > 0
      ensures Valid()
      ensures cardWidth == firstCardWidth + Gap && this.cardCount == cardCount
      ensures currentPosition == 0
    {
      cardWidth := firstCardWidth + Gap;
      this.cardCount := cardCount;
      currentPosition := 0;
      new;
      UpdateButtonState();
      StartReachable(cardWidth, cardCount);
    }

    method UpdateButtonState()
      requires cardWidth > 0
      modifies this`prevOpaque, this`nextOpaque
      ensures prevOpaque == PrevEnabled(currentPosition, cardWidth)
      ensures nextOpaque == NextEnabled(currentPosition, cardWidth, cardCount)
    {
      prevOpaque := currentPosition < 0;
      nextOpaque := currentPosition > -(cardWidth * (cardCount - 3));
    }

    method PrevClick()
      requires Valid()
      modifies this`currentPosition, this`prevOpaque, this`nextOpaque
      ensures Valid()
      ensures currentPosition == PrevPosition(old(currentPosition), cardWidth)
    {
      PrevKeepsReachable(currentPosition, cardWidth, cardCount);
      if currentPosition < 0 {
        currentPosition := currentPosition + cardWidth;
        UpdateButtonState();
      }
    }

    /** The `resize` listener with the step width kept current: the first
        card is now `firstCardWidth` pixels wide, and the track keeps showing
        the same cards. */
    method Resize(firstCardWidth: nat)
      requires Valid()
      modifies this`cardWidth, this`currentPosition
      ensures Valid()
      ensures cardWidth == firstCardWidth + Gap
      ensures currentPosition == ResizedByCard(old(currentPosition), old(cardWidth), cardWidth)
    {
      var newCardWidth := firstCardWidth + Gap;
      ResizeKeepsInvariant(currentPosition, cardWidth, newCardWidth, cardCount);
      currentPosition := ResizedByCard(currentPosition, cardWidth, newCardWidth);
      cardWidth := newCardWidth;
    }

    method NextClick()
      requires Valid()
      modifies this`currentPosition, this`prevOpaque, this`nextOpaque
      ensures Valid()
      ensures currentPosition == NextPosition(old(currentPosition), cardWidth, cardCount)
    {
      NextKeepsReachable(currentPosition, cardWidth, cardCount);
      if currentPosition > -(cardWidth * (cardCount - 3)) {
        currentPosition := currentPosition - cardWidth;
        UpdateButtonState();
      }
    }
  }
}
