/**
 * Worked examples on concrete geometry: the overflow classes, a run of
 * `scrollToNext` over five children, the two ways a press becomes a drag,
 * and the two places where `scrollToPrev` departs from its evident intent.
 */
module Scenarios {
  import opened Wrappers
  import opened Geometry
  import opened Animation
  import opened Scrollable

  /** A 300 px window over 1000 px of content (so `maxScroll` is 700) scrolled to `s`. */
  function Window(s: int): Dom {
    Dom(s, 1000, 300)
  }

  /** Five 200 px children, 20 px apart. */
  function Five(): seq<Child> {
    [Child(0, 200), Child(220, 200), Child(440, 200), Child(660, 200), Child(880, 200)]
  }

  lemma OverflowExamples()
    ensures GetOverflow(Dom(0, 400, 300)) == Right
    ensures GetOverflow(Dom(100, 400, 300)) == Left
    ensures GetOverflow(Dom(50, 400, 300)) == Both
    ensures GetOverflow(Dom(0, 300, 300)) == NoOverflow
  {
  }

  /** Which child `scrollToNext` picks at scroll `s`, and the offset it asks for. */
  function NextRequest(s: int): (r: Option<int>)
    ensures r.Some? <==> NextScrollable(Five(), Window(s)).found.Some?
  {
    match NextScrollable(Five(), Window(s)).found
    case None => None
    case Some(i) => ViewTarget(Window(s), Five()[i], NextMargin)
  }

  /**
   * Starting at 0 and following each request, `scrollToNext` reveals children
   * 1, 2, 3 and 4 in turn, each time putting the child's right edge 20 px
   * inside the right bound. The last target, 800, is past `maxScroll`.
   */
  lemma NextWalksTheRow()
    ensures NextRequest(0) == Some(140)
    ensures NextRequest(140) == Some(360)
    ensures NextRequest(360) == Some(580)
    ensures NextRequest(580) == Some(800) && 800 > Window(580).MaxScroll()
  {
    assert FirstPastRight(Five(), Window(0), 1);
    assert FirstPastRight(Five(), Window(140), 2);
    assert FirstPastRight(Five(), Window(360), 3);
    assert FirstPastRight(Five(), Window(580), 4);
  }

  /** A press followed by a 40 px move drags at once and stores the sentinel. */
  lemma DragPastThreshold(easing: Easing)
    ensures var c := RunEvents(NewComponent(DefaultAnimMs),
                               [MouseDown(100, 10, Window(50)), MouseMove(140, 10, 0)], easing);
            PhaseOf(c.state) == Dragging && c.scrollTimeout == Sentinel && c.state.scroll == 10.0
  {
  }

  /** A press followed by a 5 px move drags once the 200 ms timer fires at 250 ms. */
  lemma DragByDwell(easing: Easing)
    ensures var c := RunEvents(NewComponent(DefaultAnimMs),
                               [MouseDown(100, 10, Window(50)), MouseMove(105, 10, 0)], easing);
            && PhaseOf(c.state) == Pressed
            && c.scrollTimeout.Armed?
            && PhaseOf(Step(c, DwellTimer(c.scrollTimeout.handle, 250), easing).state) == Dragging
  {
  }

  /** The target of the tween a component has just been asked for. */
  function Requested(c: Component): real
    requires Valid(c.animator) && c.animator.animRef.Some? && c.animator.animRef.value in c.animator.frames.pending
  {
    c.animator.frames.pending[c.animator.animRef.value].Target()
  }

  function Three(): seq<Child> {
    [Child(0, 200), Child(220, 200), Child(440, 200)]
  }

  /** A new component once the first render's ref callbacks have stored `Three()`. */
  function ThreeRendered(): Component {
    NewComponent(DefaultAnimMs).(children := Three())
  }

  /**
   * At scroll 0 nothing lies left of the window, so `scrollToPrev` asks for
   * nothing, yet it leaves the children reversed. A `scrollToNext` called
   * before any re-render (directly through a ref, say) then finds the last
   * child past the right bound and asks for 360, skipping child 1, which it
   * would have revealed with a request for 140.
   */
  lemma PrevReversalRedirectsNext()
    ensures var c := ThreeRendered();
            var afterPrev := ScrollToPrev(c, Window(0), 0);
            && afterPrev.animator == c.animator
            && afterPrev.children == [Child(440, 200), Child(220, 200), Child(0, 200)]
            && Requested(ScrollToNext(afterPrev, Window(0), 0)) == 360.0
            && Requested(ScrollToNext(c, Window(0), 0)) == 140.0
  {
  }

  /**
   * Clicking the indicators goes through the window's mouse-up, whose
   * `setState` re-renders; the ref callbacks then store the children in
   * rendered order again, and the second click asks for 140 as if the
   * reversal had never happened.
   */
  lemma RerenderRestoresNext(easing: Easing)
    ensures var afterPrev := Step(ThreeRendered(), PrevClicked(Window(0), 0), easing);
            var afterUp := Step(afterPrev, MouseUp, easing);
            var rerendered := Step(afterUp, Rendered(Three()), easing);
            && afterUp.children == [Child(440, 200), Child(220, 200), Child(0, 200)]
            && rerendered.children == Three()
            && Requested(Step(rerendered, NextClicked(Window(0), 0), easing)) == 140.0
  {
  }

  /** With the intended search the order survives and `scrollToNext` still asks for 140. */
  lemma IntendedPrevKeepsNext()
    ensures var c := ThreeRendered();
            var afterPrev := ScrollToPrevIntended(c, Window(0), 0);
            && afterPrev == c
            && Requested(ScrollToNext(afterPrev, Window(0), 0)) == 140.0
  {
  }

  /**
   * At scroll 300 the previous child starts at 220. As written the request is
   * for 220, flush with the left edge; the intended one is for 200.
   */
  lemma PrevMarginDropped()
    ensures var c := ThreeRendered();
            && Requested(ScrollToPrev(c, Window(300), 0)) == 220.0
            && Requested(ScrollToPrevIntended(c, Window(300), 0)) == 200.0
  {
  }
}
