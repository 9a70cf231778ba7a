/** The welcome screen's background carousel (`WelcomeScreen.tsx`): three
    slides that advance every five seconds and follow horizontal swipes. */
module Welcome {
  /** `IMAGES.length`. */
  const SlideCount := 3

  /** How far, in pixels, a touch must travel to count as a swipe. */
  const SwipeThreshold: real := 75.0

  type Slide = i: int | 0 <= i < SlideCount

  /** `(prev + 1) % IMAGES.length`. */
  function Next(i: Slide): Slide {
    (i + 1) % SlideCount
  }

  /** `(prev - 1 + IMAGES.length) % IMAGES.length`. */
  function Prev(i: Slide): Slide {
    (i - 1 + SlideCount) % SlideCount
  }

  /** Going forward and back, in either order, returns to the same slide. */
  lemma NextPrev(i: Slide)
    ensures Prev(Next(i)) == i && Next(Prev(i)) == i
  {
  }

  /** Three ticks of the timer show the same slide again, and no fewer do. */
  lemma FullRound(i: Slide)
    ensures Next(Next(Next(i))) == i
    ensures Next(i) != i && Next(Next(i)) != i
  {
  }

  /** The slide `handleTouchEnd` moves to: its two tests run one after the
      other, a leftward travel past the threshold goes forward, a rightward
      one goes back, anything shorter stays. */
  function Swiped(i: Slide, touchStart: real, touchEnd: real): (j: Slide)
    ensures touchStart - touchEnd > SwipeThreshold ==> j == Next(i)
    ensures touchStart - touchEnd < -SwipeThreshold ==> j == Prev(i)
    ensures -SwipeThreshold <= touchStart - touchEnd <= SwipeThreshold ==> j == i
  {
    var forward := if touchStart - touchEnd > SwipeThreshold then Next(i) else i;
    if touchStart - touchEnd < -SwipeThreshold then Prev(forward) else forward
  }

  /** The component's three pieces of state. */
  datatype Slider = Slider(index: Slide, touchStart: real, touchEnd: real)

  const Mounted := Slider(0, 0.0, 0.0)

  /** `handleTouchStart`: only the start is recorded, so the end still holds
      the previous gesture's last position (0 at first). */
  function StartTouch(s: Slider, x: real): (t: Slider)
    ensures t.index == s.index && t.touchStart == x && t.touchEnd == s.touchEnd
  {
    s.(touchStart := x)
  }

  /** `handleTouchStart` with the end reset to the start as well, so that a
      touch without movement has travelled nowhere. */
  function StartTouchReset(s: Slider, x: real): (t: Slider)
    ensures t.index == s.index && t.touchStart == x && t.touchEnd == x
  {
    s.(touchStart := x, touchEnd := x)
  }

  /** `handleTouchMove`. */
  function MoveTouch(s: Slider, x: real): (t: Slider)
    ensures t.index == s.index && t.touchStart == s.touchStart && t.touchEnd == x
  {
    s.(touchEnd := x)
  }

  /** `handleTouchEnd`. */
  function EndTouch(s: Slider): (t: Slider)
    ensures t.touchStart == s.touchStart && t.touchEnd == s.touchEnd
    ensures t.index == Swiped(s.index, s.touchStart, s.touchEnd)
  {
    s.(index := Swiped(s.index, s.touchStart, s.touchEnd))
  }

  /** A tap (a touch that ends without moving) is judged against the end
      position the previous gesture left behind. */
  lemma TapUsesLastEnd(s: Slider, x: real)
    ensures EndTouch(StartTouch(s, x)).index == Swiped(s.index, x, s.touchEnd)
  {
  }

  /** So a plain tap at x = 200 on the freshly mounted screen advances the
      slide: 200 - 0 is past the threshold. */
  lemma TapAdvances()
    ensures Mounted.index == 0
    ensures EndTouch(StartTouch(Mounted, 200.0)).index == 1
  {
  }

  /** With the end reset on touch start, a tap never changes the slide. */
  lemma TapKeepsSlide(s: Slider, x: real)
    ensures EndTouch(StartTouchReset(s, x)).index == s.index
  {
  }

  /** A gesture that moves goes by exactly its own travel: forward past the
      threshold leftwards, back past it rightwards, otherwise nowhere. */
  lemma SwipeFollowsTravel(s: Slider, from: real, to: real)
    ensures var t := EndTouch(MoveTouch(StartTouch(s, from), to));
      && (from - to > SwipeThreshold ==> t.index == Next(s.index))
      && (to - from > SwipeThreshold ==> t.index == Prev(s.index))
      && (-SwipeThreshold <= from - to <= SwipeThreshold ==> t.index == s.index)
  {
  }

  /** A swipe forward followed by an equally long swipe back restores the
      slide. */
  lemma SwipeBackRestores(s: Slider, from: real, to: real)
    requires from - to > SwipeThreshold
    ensures var there := EndTouch(MoveTouch(StartTouch(s, from), to));
      EndTouch(MoveTouch(StartTouch(there, to), from)).index == s.index
  {
    var there := EndTouch(MoveTouch(StartTouch(s, from), to));
    NextPrev(s.index);
    assert there.index == Next(s.index);
  }

  class Carousel {
    var currentIndex: Slide
    var touchStart: real
    var touchEnd: real

    function State(): Slider
      reads this
    {
      Slider(currentIndex, touchStart, touchEnd)
    }

    constructor()
      ensures State() == Mounted
    {
      currentIndex := 0;
      touchStart := 0.0;
      touchEnd := 0.0;
    }

    /** One tick of the five-second interval. */
    method Tick()
      modifies this
      ensures currentIndex == Next(old(currentIndex))
      ensures touchStart == old(touchStart) && touchEnd == old(touchEnd)
    {
      currentIndex := Next(currentIndex);
    }

    method TouchStart(clientX: real)
      modifies this
      ensures State() == StartTouch(old(State()), clientX)
    {
      touchStart := clientX;
    }

    method TouchMove(clientX: real)
      modifies this
      ensures State() == MoveTouch(old(State()), clientX)
    {
      touchEnd := clientX;
    }

    /** The two tests of `handleTouchEnd`, one after the other. */
    method TouchEnd()
      modifies this
      ensures State() == EndTouch(old(State()))
    {
      if touchStart - touchEnd > SwipeThreshold {
        currentIndex := Next(currentIndex);
      }
      if touchStart - touchEnd < -SwipeThreshold {
        currentIndex := Prev(currentIndex);
      }
    }
  }
}
