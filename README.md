# Hero carousel and collections strip of the "Maison" marketing page

This project models the two pieces of state the page script keeps and proves their behaviour.

**Hero carousel** (`HeroCarousel`). The page has a fixed list of slides and a parallel list of indicators. Each one has an `active` flag. `Carousel` holds the flags as two `array<bool>` and holds the `currentSlide` index.
- `GoToSlide` clears every flag in two loops, raises slide `i` and indicator `i`, and records `i`.
- `NextSlide` and `PrevSlide` move one step cyclically. They use JavaScript's truncating `%`, which is written out as `JsRemainder`.
- `KeyDown` is the page-wide arrow-key listener.
- `Handle` dispatches every input the carousel listens to: the two buttons, an indicator click, a key press and an auto-play tick. `Step` and `Run` state the resulting index as pure functions.

**Collections strip** (`CollectionsScroller`). `Strip` holds:
- the card width: the first card's width plus a 32-pixel gap;
- the card count;
- the signed track offset;
- the two button opacities, as booleans: full (`'1'`) or half (`'0.5'`).

`PrevClick` and `NextClick` are guarded one-card steps. `UpdateButtonState` derives the opacities from the same guards. `Resize` handles a change of card width. It follows the corrected behaviour described under "## Findings" below.

`IntArith` holds the multiplication and remainder facts the proofs use.

## Model

| member | source | states |
|---|---|---|
| `HeroCarousel.JsRemainder` | script.js:55-60 | the `%` of the index formulas takes the dividend's sign, is below the divisor in magnitude, and differs from the dividend by a multiple of the divisor; on a non-negative dividend it agrees with the Euclidean remainder |
| `HeroCarousel.NextIndex` | script.js:54-57 | the next index stays in [0, n), is one more, and wraps from n-1 to 0 |
| `HeroCarousel.PrevIndex` | script.js:59-62 | the previous index stays in [0, n), is one less, and wraps from 0 to n-1, never -1 |
| `HeroCarousel.PrevUndoesNext` | script.js:54-62 | `prevSlide` after `nextSlide` returns to the starting index, and so does the reverse order |
| `HeroCarousel.ForwardStepsIsModular` | script.js:54-57 | k calls of `nextSlide` from index c land on (c + k) mod n |
| `HeroCarousel.BackwardStepsIsModular` | script.js:59-62 | k calls of `prevSlide` from index c land on (c - k) mod n |
| `HeroCarousel.FullCycleReturns` | script.js:54-62 | n calls of `nextSlide`, or n calls of `prevSlide`, return to the starting slide |
| `HeroCarousel.Step` | script.js:16-30 | every listener's event leaves the index in [0, n); a key other than the two arrows leaves it unchanged |
| `HeroCarousel.Run` | script.js:3-30 | from an index in range, any sequence of delivered events keeps the index in [0, n) |
| `HeroCarousel.CountActive` | script.js:42-52 | the number of raised flags is at most the list length, and is 0 exactly when no flag is raised |
| `HeroCarousel.OnlyActiveCountsOne` | script.js:42-52 | when only the flag at i is raised, exactly one flag is raised |
| `HeroCarousel.Carousel.constructor` | script.js:2-8 | the carousel starts at index 0 over the markup's slide and indicator flags, with as many indicators as slides |
| `HeroCarousel.Carousel.GoToSlide` | script.js:42-52 | for an index in range, exactly slide i and indicator i are active afterwards, every other flag is cleared, exactly one flag is raised in each list, and `currentSlide` is i |
| `HeroCarousel.Carousel.NextSlide` | script.js:54-57 | the index becomes `NextIndex` of the old one, and exactly that slide and indicator are active |
| `HeroCarousel.Carousel.PrevSlide` | script.js:59-62 | the index becomes `PrevIndex` of the old one, and exactly that slide and indicator are active |
| `HeroCarousel.Carousel.KeyDown` | script.js:27-30 | ArrowLeft acts as `prevSlide` and ArrowRight as `nextSlide`; any other key leaves the index and every flag unchanged |
| `HeroCarousel.Carousel.Handle` | script.js:16-30 | each wired input moves the index as `Step` says; a navigating input leaves exactly the new pair active, an ignored key changes no flag, and once exactly the current pair is active that stays true after every input |
| `CollectionsScroller.StartReachable` | script.js:83 | the initial offset 0 is a reachable offset |
| `CollectionsScroller.PrevPosition` | script.js:91-92 | a `prev` click moves the track by exactly one card width to the right, or not at all, and it moves exactly when the offset is below 0 |
| `CollectionsScroller.NextPosition` | script.js:99-100 | a `next` click moves the track by exactly one card width to the left, or not at all, and it moves exactly when the offset is above -(cardWidth·(count-3)) |
| `CollectionsScroller.PrevEnabled` | script.js:86 | the `prev` button is drawn at full opacity exactly when a `prev` click would move the track |
| `CollectionsScroller.NextEnabled` | script.js:87 | the `next` button is drawn at full opacity exactly when a `next` click would move the track |
| `CollectionsScroller.ButtonsOnReachable` | script.js:85-88 | on a reachable offset, `prev` is enabled exactly when a whole card is hidden on the left, and `next` exactly when one more card can be panned in |
| `CollectionsScroller.AfterClicks` | script.js:90-104 | a sequence of k clicks moves the offset by at most k card widths either way |
| `CollectionsScroller.NextTimes` | script.js:98-104 | repeated `next` clicks never move the track to the right |
| `CollectionsScroller.NextKeepsReachable` | script.js:98-104 | a `next` click keeps the offset a whole number of cards within [-(cardWidth·(count-3)), 0] |
| `CollectionsScroller.PrevKeepsReachable` | script.js:90-96 | a `prev` click keeps the offset a whole number of cards within [-(cardWidth·(count-3)), 0] |
| `CollectionsScroller.ClicksUndoEachOther` | script.js:90-104 | from a reachable offset, a `prev` click undoes a `next` click that moved the track, and the reverse holds too |
| `CollectionsScroller.ShortStripIsFixed` | script.js:85-104 | with three cards or fewer the offset stays 0, neither click moves it, and both buttons are at half opacity |
| `CollectionsScroller.ClicksStayReachable` | script.js:83-106 | any sequence of clicks from a reachable offset ends at a reachable offset |
| `CollectionsScroller.NextTimesFromStart` | script.js:98-104 | from 0, k clicks of `next` pan min(k, count-3) cards, so further clicks at the edge are no-ops |
| `CollectionsScroller.SixCardExample` | script.js:81-104 | six cards 300 pixels apart give offsets 0, -300, -600 and -900, and a fourth `next` stays at -900 |
| `CollectionsScroller.ResizedAsWritten` | script.js:109-111 | the resize listener scales the offset by the new step width over the captured one |
| `CollectionsScroller.ResizeBreaksBounds` | script.js:81-113 | one resize from a 300- to a 250-pixel step at offset -300 leaves -250, which is not a whole number of 300-pixel steps; a `prev` click then moves the track to +50; a repeated resize shrinks the offset again |
| `CollectionsScroller.CardsPanned` | script.js:83-104 | a reachable offset is k whole cards to the left, with k between 0 and count-3 |
| `CollectionsScroller.WholeCardsOffset` | script.js:85-104 | k whole cards to the left is a reachable offset, and each button's state depends on k alone |
| `CollectionsScroller.ResizeKeepsInvariant` | script.js:109-113 | re-deriving the offset from the number of cards panned gives the source's scaled offset, stays reachable with the new width, and leaves both buttons as drawn |
| `CollectionsScroller.Strip.constructor` | script.js:76-106 | the step width is the first card's width plus 32, the offset starts at 0, and the buttons are drawn to match |
| `CollectionsScroller.Strip.UpdateButtonState` | script.js:85-88 | `prev` is at full opacity exactly when the offset is below 0; `next` exactly when the offset is above -(cardWidth·(count-3)) |
| `CollectionsScroller.Strip.PrevClick` | script.js:90-96 | the offset grows by exactly one card width when it is below 0 and is unchanged otherwise; the reachability and button invariant is kept |
| `CollectionsScroller.Strip.Resize` | script.js:109-113 | the step width becomes the new first card's width plus 32, the track keeps the same number of cards panned, and the reachability and button invariant is kept |
| `CollectionsScroller.Strip.NextClick` | script.js:98-104 | the offset shrinks by exactly one card width when it is above the limit and is unchanged otherwise; the reachability and button invariant is kept |

## Findings

| source | as written | input that shows it | evidently intended | confidence | as-written member | corrected member |
|---|---|---|---|---|---|---|
| script.js:109-113 | the resize listener scales the offset by `newCardWidth / cardWidth`. `cardWidth` is the width captured at script.js:81, and it is never updated, so the click guards at script.js:91-92 and 99-100 keep stepping by the old width | six cards, step width 300, one `next` click (offset -300), then a resize to step width 250: the offset becomes -250, and a `prev` click then moves it to +50, past 0. Each further resize event divides by 300 again | the step width is updated together with the offset. The offset then stays a whole number of cards within [-(cardWidth·(count-3)), 0] | medium; not executed | `CollectionsScroller.ResizeBreaksBounds` | `CollectionsScroller.Strip.Resize` |

## Left out

- Auto-play (script.js:64-74) is left out because timers belong to the host runtime. A tick appears only as the `AutoPlayTick` event, which acts as `nextSlide`. The code does not guarantee a single running timer: `startAutoPlay` never clears an existing interval, and `stopAutoPlay` never resets the handle. So the model claims no "at most one timer" invariant, although the design description promises one.
- Pausing on hover (script.js:33-39) only stops and starts the timer, so it is left out with the timer.
- DOM queries and listener registration (script.js:4-5, 16-40, 77-80) are left out. The constructors take the element lists' flags, the card count and the first card's width as parameters.
- The `translateX` write to the track (script.js:93, 101, 112) is left out. It only mirrors the offset into a style string.
- The initial `active` classes come from the markup, not from the script. So the constructor takes them as given, and "exactly one active" is proved only after the first navigation.
- `HeroCarousel.Carousel.GoToSlide` requires an index in range. The source would fail on `slides[index]` for any other index, and its callers only pass in-range indices.
- HeroCarousel.Carousel.constructor requires non-empty slide and indicator lists of equal length. The source would fail on an empty list at the first navigation. With fewer indicators than slides, it would fail at `indicators[index]`. With more indicators than slides, a click on indicator i ≥ the number of slides clears every flag (script.js:44-45) and then fails at `slides[index]` (script.js:48), leaving no slide active. The model does not capture these failure states.
- CollectionsScroller.Strip.constructor requires at least one card. On an empty card list the source fails when it reads `cards[0].offsetWidth` (script.js:81), and the strip is never set up. The model does not capture that failure.
- `HeroCarousel.NextIndex` and `HeroCarousel.PrevIndex` require the current index in range. This is the invariant `currentSlide` keeps, because it is only ever assigned by `goToSlide`.
- CollectionsScroller.Strip.Resize follows the corrected behaviour from "## Findings", not the source. The source multiplies the offset by a floating-point ratio and keeps the card width captured at script.js:81. `CollectionsScroller.ResizedAsWritten` models that formula, with exact rationals in place of doubles. The reachability bound and the whole-card property (`Strip.Valid`, `ClicksStayReachable`) hold for the source only while no resize event occurs. After one, the source can break the design's "offset never exceeds 0". The model does not follow the source's offset after a resize.
- Anchor smooth-scroll (script.js:118-129) is left out because it is a browser `scrollIntoView` call.
- The scroll-triggered reveal (script.js:132-154) is left out because it relies on asynchronous runtime observation.
- Parallax (script.js:161-169) is left out because it is floating-point scaling of the scroll offset.
- The custom cursor and the injected stylesheet (script.js:172-220) are left out because they are pure presentation.
- JavaScript numbers are doubles. All values modelled here are small integers, which doubles represent exactly, so the model uses unbounded `int`.
