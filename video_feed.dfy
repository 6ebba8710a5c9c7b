/**
 * The swipeable feed (client/src/components/VideoFeed.tsx).
 *
 * The navigation state is the index of the visible slide, the debounce flag
 * `isScrolling` and the vertical coordinate where the last touch started.
 * Gestures are wheel events, touch start/end events, and `Settle`, which
 * stands for the 500 ms timer that clears the debounce flag. The pure
 * functions below say what one gesture does; the class `Feed` holds the
 * component's state and its handlers are proved to follow them.
 */
module VideoFeed {
  import opened Common
  import opened Types

  /** Minimum vertical travel, in pixels, for a touch swipe to count. */
  const SwipeThreshold: real := 50.0

  datatype Nav = Nav(index: int, scrolling: bool, touchStartY: real)

  datatype Gesture =
    | Wheel(deltaY: real)
    | TouchStart(startY: real)
    | TouchEnd(endY: real)
    | Settle

  /** The index stays inside a list of `n` slides (index 0 when the list is empty). */
  predicate InBounds(s: Nav, n: int)
  {
    0 <= s.index && (s.index < n || s.index == 0)
  }

  /** `scrollToIndex`: ignored while scrolling; otherwise moves and starts the settle window. */
  function ScrollTo(s: Nav, target: int): (t: Nav)
    ensures s.scrolling ==> t == s
    ensures !s.scrolling ==> t.index == target && t.scrolling
    ensures t.touchStartY == s.touchStartY
  {
    if s.scrolling then s else s.(index := target, scrolling := true)
  }

  /** Moves one slide forward or back, as the wheel and touch handlers both do. */
  function Navigate(s: Nav, n: int, forward: bool, backward: bool): Nav
  {
    if forward && s.index < n - 1 then ScrollTo(s, s.index + 1)
    else if backward && s.index > 0 then ScrollTo(s, s.index - 1)
    else s
  }

  /** `handleWheel`: a positive `deltaY` advances, a negative one retreats, zero does nothing. */
  function WheelStep(s: Nav, n: int, deltaY: real): (t: Nav)
    ensures t.touchStartY == s.touchStartY
    ensures s.scrolling ==> t == s
    ensures t.index == s.index + 1 <==> !s.scrolling && deltaY > 0.0 && s.index < n - 1
    ensures t.index == s.index - 1 <==> !s.scrolling && deltaY < 0.0 && s.index > 0
    ensures t.index == s.index ==> t == s
    ensures t.index != s.index ==> t.scrolling
  {
    if s.scrolling then s
    else Navigate(s, n, deltaY > 0.0, deltaY < 0.0)
  }

  /** `handleTouchEnd`: only a travel of more than 50 px moves; upward travel advances. */
  function TouchEndStep(s: Nav, n: int, endY: real): (t: Nav)
    ensures t.touchStartY == s.touchStartY
    ensures s.scrolling ==> t == s
    ensures Abs(s.touchStartY - endY) <= SwipeThreshold ==> t == s
    ensures t.index == s.index + 1 <==>
      !s.scrolling && s.touchStartY - endY > SwipeThreshold && s.index < n - 1
    ensures t.index == s.index - 1 <==>
      !s.scrolling && s.touchStartY - endY < -SwipeThreshold && s.index > 0
    ensures t.index == s.index ==> t == s
    ensures t.index != s.index ==> t.scrolling
  {
    if s.scrolling then s
    else
      var diff := s.touchStartY - endY;
      if Abs(diff) > SwipeThreshold then Navigate(s, n, diff > 0.0, diff < 0.0)
      else s
  }

  /** One gesture on a feed of `n` slides. `handleTouchStart` has no debounce guard. */
  function Step(s: Nav, n: int, g: Gesture): (t: Nav)
    ensures -1 <= t.index - s.index <= 1
    ensures g.TouchStart? ==> t == s.(touchStartY := g.startY)
    ensures g.Settle? ==> t == s.(scrolling := false)
    ensures !g.TouchStart? ==> t.touchStartY == s.touchStartY
  {
    match g
    case Wheel(dy) => WheelStep(s, n, dy)
    case TouchStart(y) => s.(touchStartY := y)
    case TouchEnd(y) => TouchEndStep(s, n, y)
    case Settle => s.(scrolling := false)
  }

  /** A sequence of gestures, applied in order. */
  function Run(s: Nav, n: int, gs: seq<Gesture>): (t: Nav)
    ensures s.index - |gs| <= t.index <= s.index + |gs|
    decreases |gs|
  {
    if gs == [] then s else Run(Step(s, n, gs[0]), n, gs[1..])
  }

  /** How many gestures of `gs` changed the index. */
  function Moves(s: Nav, n: int, gs: seq<Gesture>): nat
    decreases |gs|
  {
    if gs == [] then 0
    else
      var t := Step(s, n, gs[0]);
      (if t.index != s.index then 1 else 0) + Moves(t, n, gs[1..])
  }

  /** An accepted move is one slide, sets the debounce flag and needs it clear beforehand. */
  lemma StepMove(s: Nav, n: int, g: Gesture)
    ensures var t := Step(s, n, g);
      t.index != s.index ==>
        !s.scrolling && t.scrolling && (t.index == s.index + 1 || t.index == s.index - 1)
        && (g.Wheel? || g.TouchEnd?)
  {
  }

  /** Every gesture keeps the index inside the list. */
  lemma StepInBounds(s: Nav, n: int, g: Gesture)
    requires InBounds(s, n)
    ensures InBounds(Step(s, n, g), n)
  {
  }

  /** Under any sequence of gestures the index stays inside the list. */
  lemma {:induction false} RunInBounds(s: Nav, n: int, gs: seq<Gesture>)
    requires InBounds(s, n)
    ensures InBounds(Run(s, n, gs), n)
    decreases |gs|
  {
    if gs != [] {
      StepInBounds(s, n, gs[0]);
      RunInBounds(Step(s, n, gs[0]), n, gs[1..]);
    }
  }

  predicate NoSettle(gs: seq<Gesture>)
  {
    forall k :: 0 <= k < |gs| ==> !gs[k].Settle?
  }

  /**
   * Debounce: while the flag is set and the timer has not fired, no gesture
   * changes the index and the flag stays set.
   */
  lemma {:induction false} ScrollingBlocksMoves(s: Nav, n: int, gs: seq<Gesture>)
    requires s.scrolling && NoSettle(gs)
    ensures Run(s, n, gs).scrolling && Run(s, n, gs).index == s.index
    ensures Moves(s, n, gs) == 0
    decreases |gs|
  {
    if gs != [] {
      ScrollingBlocksMoves(Step(s, n, gs[0]), n, gs[1..]);
    }
  }

  /**
   * At most one move per settle window: between two firings of the timer the
   * index changes at most once, by one slide.
   */
  lemma {:induction false} AtMostOneMovePerWindow(s: Nav, n: int, gs: seq<Gesture>)
    requires NoSettle(gs)
    ensures Moves(s, n, gs) <= 1
    ensures s.scrolling ==> Moves(s, n, gs) == 0
    ensures var e := Run(s, n, gs).index; s.index - 1 <= e <= s.index + 1
    decreases |gs|
  {
    if s.scrolling {
      ScrollingBlocksMoves(s, n, gs);
    } else if gs != [] {
      var t := Step(s, n, gs[0]);
      if t.index != s.index {
        StepMove(s, n, gs[0]);
        ScrollingBlocksMoves(t, n, gs[1..]);
      } else {
        assert t.scrolling == s.scrolling by {
          assert gs[0].Wheel? || gs[0].TouchStart? || gs[0].TouchEnd?;
        }
        AtMostOneMovePerWindow(t, n, gs[1..]);
      }
    }
  }

  /** No wraparound: advancing at the last slide or retreating at the first is a no-op and starts no settle window. */
  lemma NoWraparound(s: Nav, n: int, deltaY: real, endY: real)
    requires n > 0 && !s.scrolling
    ensures s.index == n - 1 && deltaY > 0.0 ==> WheelStep(s, n, deltaY) == s
    ensures s.index == n - 1 && s.touchStartY - endY > SwipeThreshold ==> TouchEndStep(s, n, endY) == s
    ensures s.index == 0 && deltaY < 0.0 ==> WheelStep(s, n, deltaY) == s
    ensures s.index == 0 && s.touchStartY - endY < -SwipeThreshold ==> TouchEndStep(s, n, endY) == s
  {
  }

  /** `k` wheel-downs, each followed by the settle timer. */
  function SettledAdvances(k: nat): (gs: seq<Gesture>)
    ensures |gs| == 2 * k
  {
    if k == 0 then [] else [Wheel(1.0), Settle] + SettledAdvances(k - 1)
  }

  /**
   * With the gestures spaced beyond the settle delay, each wheel-down
   * advances by one until the last slide is reached.
   */
  lemma {:induction false} SettledAdvancesReach(s: Nav, n: int, k: nat)
    requires !s.scrolling && 0 <= s.index && s.index + k <= n - 1
    ensures Run(s, n, SettledAdvances(k)) == s.(index := s.index + k)
    decreases k
  {
    if k > 0 {
      var gs := SettledAdvances(k);
      var t := Step(Step(s, n, Wheel(1.0)), n, Settle);
      assert t == s.(index := s.index + 1);
      assert gs[1..][1..] == SettledAdvances(k - 1);
      SettledAdvancesReach(t, n, k - 1);
    }
  }

  /** From the first slide, n-1 settled advances reach the last slide, and a further advance does nothing. */
  lemma ReachLastSlide(n: int, y: real)
    requires n > 0
    ensures var e := Run(Nav(0, false, y), n, SettledAdvances(n - 1));
      e.index == n - 1 && !e.scrolling && WheelStep(e, n, 1.0) == e
  {
    SettledAdvancesReach(Nav(0, false, y), n, n - 1);
  }

  // ---------------------------------------------------------------------
  // Rendering

  /** The props a slide gives its player. */
  datatype Slide = Slide(video: Video, isActive: bool, shouldPreload: bool)

  function Slides(videos: seq<Video>, currentIndex: int): (r: seq<Slide>)
    ensures |r| == |videos|
    ensures forall i :: 0 <= i < |r| ==> r[i].video == videos[i]
  {
    seq(|videos|, i requires 0 <= i < |videos| =>
      Slide(videos[i], i == currentIndex, i == currentIndex + 1))
  }

  function ActiveSlides(r: seq<Slide>): set<int>
  {
    set i | 0 <= i < |r| && r[i].isActive
  }

  function PreloadedSlides(r: seq<Slide>): set<int>
  {
    set i | 0 <= i < |r| && r[i].shouldPreload
  }

  /** Exactly one slide is active; the preload hint is on only for the next slide, if there is one. */
  lemma ExactlyOneActive(videos: seq<Video>, currentIndex: int)
    requires 0 <= currentIndex < |videos|
    ensures ActiveSlides(Slides(videos, currentIndex)) == {currentIndex}
    ensures PreloadedSlides(Slides(videos, currentIndex)) ==
      if currentIndex + 1 < |videos| then {currentIndex + 1} else {}
  {
  }

  /** What the component renders. Only the slide list carries the gesture handlers. */
  datatype View = Spinner | EmptyState | SlideList(slides: seq<Slide>)

  function Render(loading: bool, videos: seq<Video>, currentIndex: int): (v: View)
    ensures loading ==> v == Spinner
    ensures !loading && videos == [] ==> v == EmptyState
    ensures !loading && videos != [] ==> v == SlideList(Slides(videos, currentIndex))
    ensures v.SlideList? ==> |v.slides| == |videos| > 0
  {
    if loading then Spinner
    else if |videos| == 0 then EmptyState
    else SlideList(Slides(videos, currentIndex))
  }

  /** The player a slide instantiates gets only `video` and `isActive`: the preload hint is dropped. */
  function PlayerProps(slide: Slide): (r: (Video, bool))
    ensures r.0 == slide.video && r.1 == slide.isActive
  {
    (slide.video, slide.isActive)
  }

  /**
   * In a rendered feed the i-th player plays the i-th video, and exactly the
   * player of the current slide is told to play.
   */
  lemma OnePlayerPlays(videos: seq<Video>, currentIndex: int, i: int)
    requires 0 <= i < |videos|
    ensures var props := PlayerProps(Slides(videos, currentIndex)[i]);
      props.0 == videos[i] && (props.1 <==> i == currentIndex)
  {
  }

  // ---------------------------------------------------------------------
  // The random reordering at load time

  /** Exchanges two positions when both are inside the list; otherwise leaves it as it is. */
  function Exchange<T>(s: seq<T>, i: nat, j: nat): (r: seq<T>)
    ensures |r| == |s|
  {
    if i < |s| && j < |s| then s[i := s[j]][j := s[i]] else s
  }

  /**
   * The order `sort` leaves after comparing with a random comparator: the
   * comparator's answers are not modelled; the sort is a sequence of exchanges.
   */
  function Shuffle<T>(s: seq<T>, exchanges: seq<(nat, nat)>): (r: seq<T>)
    ensures |r| == |s|
    decreases |exchanges|
  {
    if exchanges == [] then s
    else Shuffle(Exchange(s, exchanges[0].0, exchanges[0].1), exchanges[1..])
  }

  lemma UpdatePermutes<T>(s: seq<T>, i: nat, v: T)
    requires i < |s|
    ensures multiset(s[i := v]) == multiset(s) - multiset{s[i]} + multiset{v}
  {
  }

  lemma ExchangePermutes<T>(s: seq<T>, i: nat, j: nat)
    ensures multiset(Exchange(s, i, j)) == multiset(s)
  {
    if i < |s| && j < |s| && i != j {
      var t := s[i := s[j]];
      UpdatePermutes(s, i, s[j]);
      UpdatePermutes(t, j, s[i]);
      assert t[j] == s[j];
    }
  }

  /** The displayed list is a permutation of the fetched one. */
  lemma {:induction false} ShufflePermutes<T>(s: seq<T>, exchanges: seq<(nat, nat)>)
    ensures multiset(Shuffle(s, exchanges)) == multiset(s)
    decreases |exchanges|
  {
    if exchanges != [] {
      var e := exchanges[0];
      ExchangePermutes(s, e.0, e.1);
      ShufflePermutes(Exchange(s, e.0, e.1), exchanges[1..]);
    }
  }

  // ---------------------------------------------------------------------
  // The component

  class Feed {
    var videos: seq<Video>
    var currentIndex: int
    var loading: bool
    var isScrolling: bool
    var touchStartY: real

    function NavState(): Nav
      reads this
    {
      Nav(currentIndex, isScrolling, touchStartY)
    }

    ghost predicate Valid()
      reads this
    {
      InBounds(NavState(), |videos|) && (loading ==> videos == [] && currentIndex == 0)
    }

    function View(): View
      reads this
    {
      Render(loading, videos, currentIndex)
    }

    constructor ()
      ensures Valid() && loading && videos == []
      ensures NavState() == Nav(0, false, 0.0)
    {
      videos := [];
      currentIndex := 0;
      loading := true;
      isScrolling := false;
      touchStartY := 0.0;
    }

    /**
     * `fetchVideos` on mount: on success the list is the fetched one after
     * the random reordering; on failure it stays empty. Loading ends either way.
     */
    method FetchVideos(response: Option<seq<Video>>, exchanges: seq<(nat, nat)>)
      requires Valid() && loading
      modifies this`videos, this`loading
      ensures Valid() && !loading
      ensures response.Some? ==> videos == Shuffle(response.value, exchanges)
      ensures response.Some? ==> multiset(videos) == multiset(response.value)
      ensures response.None? ==> videos == []
    {
      if response.Some? {
        var shuffled := Shuffle(response.value, exchanges);
        ShufflePermutes(response.value, exchanges);
        videos := shuffled;
        loading := false;
      } else {
        loading := false;
      }
    }

    /** `scrollToIndex`, called only with a neighbour of the current slide. */
    method ScrollToIndex(index: int)
      requires Valid() && 0 <= index < |videos|
      modifies this`currentIndex, this`isScrolling
      ensures Valid() && NavState() == ScrollTo(old(NavState()), index)
    {
      if isScrolling {
        return;
      }
      isScrolling := true;
      currentIndex := index;
    }

    method HandleWheel(deltaY: real)
      requires Valid()
      modifies this`currentIndex, this`isScrolling
      ensures Valid() && NavState() == WheelStep(old(NavState()), |videos|, deltaY)
    {
      if isScrolling {
        return;
      }
      if deltaY > 0.0 && currentIndex < |videos| - 1 {
        ScrollToIndex(currentIndex + 1);
      } else if deltaY < 0.0 && currentIndex > 0 {
        ScrollToIndex(currentIndex - 1);
      }
    }

    method HandleTouchStart(startY: real)
      requires Valid()
      modifies this`touchStartY
      ensures Valid() && NavState() == Step(old(NavState()), |videos|, TouchStart(startY))
    {
      touchStartY := startY;
    }

    method HandleTouchEnd(endY: real)
      requires Valid()
      modifies this`currentIndex, this`isScrolling
      ensures Valid() && NavState() == TouchEndStep(old(NavState()), |videos|, endY)
    {
      if isScrolling {
        return;
      }
      var diff := touchStartY - endY;
      if Abs(diff) > SwipeThreshold {
        if diff > 0.0 && currentIndex < |videos| - 1 {
          ScrollToIndex(currentIndex + 1);
        } else if diff < 0.0 && currentIndex > 0 {
          ScrollToIndex(currentIndex - 1);
        }
      }
    }

    /** The settle timer fires and clears the debounce flag. */
    method SettleTimerFires()
      requires Valid()
      modifies this`isScrolling
      ensures Valid() && NavState() == Step(old(NavState()), |videos|, Settle)
    {
      isScrolling := false;
    }

    /** Dispatches one gesture to its handler. */
    method Handle(g: Gesture)
      requires Valid()
      modifies this`currentIndex, this`isScrolling, this`touchStartY
      ensures Valid() && NavState() == Step(old(NavState()), |videos|, g)
    {
      match g
      case Wheel(dy) => HandleWheel(dy);
      case TouchStart(y) => HandleTouchStart(y);
      case TouchEnd(y) => HandleTouchEnd(y);
      case Settle => SettleTimerFires();
    }

    /** Any sequence of gestures drives the component exactly as `Run` says. */
    method HandleAll(gs: seq<Gesture>)
      requires Valid()
      modifies this`currentIndex, this`isScrolling, this`touchStartY
      ensures Valid() && NavState() == Run(old(NavState()), |videos|, gs)
      ensures |videos| > 0 ==> 0 <= currentIndex < |videos|
    {
      var k := 0;
      while k < |gs|
        invariant 0 <= k <= |gs| && Valid()
        invariant Run(old(NavState()), |videos|, gs) == Run(NavState(), |videos|, gs[k..])
      {
        assert gs[k..][1..] == gs[k + 1..];
        Handle(gs[k]);
        k := k + 1;
      }
    }
  }
}
