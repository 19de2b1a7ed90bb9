/**
 * The controller of src/Scrollable.js without its rendering: React state
 * (with `setState` applied at once), the drag handlers and their 200 ms timer
 * slot, the scroll operations that start an Animator run, and one event
 * step over all of them.
 */
module Scrollable {
  import opened Wrappers
  import opened Host
  import opened Geometry
  import opened Animation

  /** A single move of at least this many pixels marks the gesture as a drag. */
  const DragThreshold: int := 30
  /** Delay of the timer that marks a slow gesture as a drag. */
  const DwellMs: int := 200
  /** The `offset` `scrollToNext` passes to `scrollToView`. */
  const NextMargin: int := 20
  /** The `offset` `scrollToPrev` passes to `scrollToView`. */
  const PrevMargin: int := -20
  /** The `animTime` prop's default, 0.3 s. */
  const DefaultAnimMs: nat := 300

  /** `this.state`; `scrolling` is undefined, that is false, until first set. */
  datatype State = State(
    overflow: Overflow,
    mouseDown: bool,
    lastClientX: int,
    lastClientY: int,
    deltaX: int,
    deltaY: int,
    scroll: real,
    scrolling: bool)

  /** `this.scrollTimeout`: null, a pending `setTimeout` handle, or the value `true`. */
  datatype TimeoutSlot = Cleared | Armed(handle: nat) | Sentinel

  /**
   * One mounted component: its state, its timer slot, the host's timer queue
   * (each entry holds the time it is due), `childrenRefs`, its Animator and
   * the `animTime` prop in milliseconds.
   */
  datatype Component = Component(
    state: State,
    scrollTimeout: TimeoutSlot,
    timers: Queue<int>,
    children: seq<Child>,
    animator: Animator,
    animMs: nat)

  /** The constructor: `childrenRefs` is empty until the first render's ref callbacks fill it. */
  function NewComponent(animMs: nat): (c: Component)
    ensures Inv(c)
    ensures PhaseOf(c.state) == Idle && c.state.scroll == 0.0 && c.state.overflow == NoOverflow
    ensures c.scrollTimeout == Cleared && c.timers.pending == map[]
    ensures c.animator == NewAnimator() && c.children == [] && c.animMs == animMs
  {
    Component(State(NoOverflow, false, 0, 0, 0, 0, 0.0, false), Cleared, EmptyQueue(), [], NewAnimator(), animMs)
  }

  /** The gesture as the rendering layer sees it. */
  datatype Phase = Idle | Pressed | Dragging

  function PhaseOf(s: State): Phase {
    if s.scrolling then Dragging else if s.mouseDown then Pressed else Idle
  }

  /**
   * What holds in every reachable component: at most one animation frame is
   * pending, a pending dwell timer is the one in the slot and only while the
   * button is down, a drag implies the button is down, and the sentinel is
   * only stored together with a drag.
   */
  predicate Inv(c: Component) {
    && Valid(c.animator)
    && WellFormed(c.timers)
    && (forall h :: h in c.timers.pending ==> c.scrollTimeout == Armed(h) && c.state.mouseDown)
    && (c.state.scrolling ==> c.state.mouseDown)
    && (c.scrollTimeout == Sentinel ==> c.state.scrolling)
  }

  /** At most one dwell timer is pending. */
  lemma AtMostOneDwellTimer(c: Component)
    requires Inv(c)
    ensures |c.timers.pending| <= 1
  {
    if c.timers.pending != map[] {
      var h :| h in c.timers.pending;
      assert c.timers.pending.Keys == {h};
    }
  }

  // ---------------------------------------------------------------------------
  // Overflow

  /** `_updateOverflow`: the state to write, or None when `setState` is not called. */
  function UpdateOverflow(s: State, d: Dom): (r: Option<State>)
    ensures r.None? <==> s.overflow == GetOverflow(d)
    ensures r.Some? ==> r.value.overflow == GetOverflow(d) && r.value == s.(overflow := r.value.overflow)
  {
    var newOverflow := GetOverflow(d);
    if newOverflow != s.overflow then Some(s.(overflow := GetOverflow(d))) else None
  }

  /** The state after `_updateOverflow`. */
  function WithOverflow(s: State, d: Dom): State {
    UpdateOverflow(s, d).GetOr(s)
  }

  /** A second `_updateOverflow` on unchanged geometry writes nothing. */
  lemma UpdateOverflowIdempotent(s: State, d: Dom)
    ensures UpdateOverflow(WithOverflow(s, d), d).None?
    ensures WithOverflow(WithOverflow(s, d), d) == WithOverflow(s, d)
  {
  }

  // ---------------------------------------------------------------------------
  // Drag handlers

  /** `_onMouseDown`: the drag baseline is the mouse position and the DOM's `scrollLeft`. */
  function OnMouseDown(c: Component, clientX: int, clientY: int, d: Dom): (r: Component)
    ensures r.state.mouseDown && r.state.lastClientX == clientX && r.state.lastClientY == clientY
    ensures r.state.deltaX == 0 && r.state.deltaY == 0
    ensures r.state.scroll == d.scrollLeft as real
    ensures r.state.scrolling == c.state.scrolling && r.state.overflow == c.state.overflow
    ensures r.scrollTimeout == c.scrollTimeout && r.timers == c.timers
    ensures r.animator == c.animator && r.children == c.children && r.animMs == c.animMs
  {
    c.(state := c.state.(mouseDown := true, lastClientX := clientX, lastClientY := clientY,
                         deltaX := 0, deltaY := 0, scroll := d.scrollLeft as real))
  }

  function Abs(x: int): nat {
    if x < 0 then -x else x
  }

  /**
   * `_onMouseMove` at clock time `now`. While the button is down the content
   * follows the mouse: `scroll` drops by exactly the horizontal move. With an
   * empty slot, a move of 30 px or more starts the drag and stores the
   * sentinel; a smaller one arms the 200 ms timer. With an occupied slot the
   * timer side is left alone.
   */
  function OnMouseMove(c: Component, clientX: int, clientY: int, now: int): (r: Component)
    ensures !c.state.mouseDown ==> r == c
    ensures c.state.mouseDown ==>
              && r.state.scroll + clientX as real == c.state.scroll + c.state.lastClientX as real
              && r.state.lastClientX == clientX && r.state.lastClientY == clientY
              && r.state.deltaX == clientX - c.state.lastClientX && r.state.deltaY == clientY - c.state.lastClientY
              && r.state.mouseDown && r.state.overflow == c.state.overflow
    ensures c.state.mouseDown && c.scrollTimeout.Cleared? && Abs(clientX - c.state.lastClientX) >= DragThreshold ==>
              r.state.scrolling && r.scrollTimeout == Sentinel && r.timers == c.timers
    ensures c.state.mouseDown && c.scrollTimeout.Cleared? && Abs(clientX - c.state.lastClientX) < DragThreshold ==>
              && r.scrollTimeout.Armed?
              && r.timers.pending == c.timers.pending[r.scrollTimeout.handle := now + DwellMs]
              && (WellFormed(c.timers) ==> r.scrollTimeout.handle !in c.timers.pending)
              && r.state.scrolling == c.state.scrolling
    ensures !c.scrollTimeout.Cleared? ==>
              r.scrollTimeout == c.scrollTimeout && r.timers == c.timers && r.state.scrolling == c.state.scrolling
    ensures r.animator == c.animator && r.children == c.children && r.animMs == c.animMs
  {
    if !c.state.mouseDown then c
    else
      var deltaX := clientX - c.state.lastClientX;
      var deltaY := clientY - c.state.lastClientY;
      var s := c.state.(deltaX := deltaX, deltaY := deltaY, lastClientX := clientX,
                        lastClientY := clientY, scroll := c.state.scroll - deltaX as real);
      if c.scrollTimeout.Cleared? && Abs(deltaX) < DragThreshold then
        var t := Schedule(c.timers, now + DwellMs);
        c.(state := s, scrollTimeout := Armed(t.handle), timers := t.queue)
      else if Abs(deltaX) >= DragThreshold && c.scrollTimeout.Cleared? then
        c.(state := s.(scrolling := true), scrollTimeout := Sentinel)
      else
        c.(state := s)
  }

  /** Cancels the timer the slot names, if any, and empties the slot. */
  function ClearTimeout(c: Component): (r: Component)
    ensures r.scrollTimeout == Cleared
    ensures Inv(c) ==> r.timers.pending == map[] && WellFormed(r.timers)
    ensures r.state == c.state && r.animator == c.animator && r.children == c.children && r.animMs == c.animMs
  {
    var timers := if c.scrollTimeout.Armed? then Cancel(c.timers, c.scrollTimeout.handle) else c.timers;
    c.(scrollTimeout := Cleared, timers := timers)
  }

  /** `_onMouseUp`: from any state, the gesture ends and no dwell timer is left. */
  function OnMouseUp(c: Component): (r: Component)
    ensures PhaseOf(r.state) == Idle && !r.state.mouseDown
    ensures r.scrollTimeout == Cleared
    ensures Inv(c) ==> r.timers.pending == map[]
    ensures r.state == c.state.(mouseDown := false, scrolling := false)
    ensures r.animator == c.animator && r.children == c.children && r.animMs == c.animMs
  {
    var cleared := ClearTimeout(c);
    cleared.(state := cleared.state.(mouseDown := false, scrolling := false))
  }

  /**
   * `_onMouseOut`: always clears the timer slot; ends the gesture only when
   * the mouse left for no element (`toElement` or `relatedTarget` is null).
   */
  function OnMouseOut(c: Component, toElementNull: bool, relatedTargetNull: bool): (r: Component)
    ensures r.scrollTimeout == Cleared
    ensures Inv(c) ==> r.timers.pending == map[]
    ensures toElementNull || relatedTargetNull ==> r.state == c.state.(mouseDown := false, scrolling := false)
    ensures !(toElementNull || relatedTargetNull) ==> r.state == c.state
    ensures r.animator == c.animator && r.children == c.children && r.animMs == c.animMs
  {
    var cleared := ClearTimeout(c);
    if toElementNull || relatedTargetNull then
      cleared.(state := cleared.state.(mouseDown := false, scrolling := false))
    else cleared
  }

  /**
   * The 200 ms timer fires: a pending, due timer marks the gesture as a drag.
   * The slot keeps the spent handle, so no new timer is armed until a
   * mouse-up or mouse-out empties the slot.
   */
  function OnDwellTimer(c: Component, h: nat, now: int): (r: Component)
    ensures h in c.timers.pending && now >= c.timers.pending[h] ==>
              && r.state == c.state.(scrolling := true)
              && h !in r.timers.pending
              && r.scrollTimeout == c.scrollTimeout
    ensures !(h in c.timers.pending && now >= c.timers.pending[h]) ==> r == c
    ensures Inv(c) && r.state.scrolling ==> r.state.mouseDown
    ensures r.animator == c.animator && r.children == c.children && r.animMs == c.animMs
  {
    if h in c.timers.pending && now >= c.timers.pending[h] then
      c.(state := c.state.(scrolling := true), timers := Cancel(c.timers, h))
    else c
  }

  /**
   * `_onScroll`: while the button is down the DOM's `scrollLeft` is adopted
   * and any tween stopped; the overflow is recomputed either way.
   */
  function OnScroll(c: Component, d: Dom): (r: Component)
    ensures c.state.mouseDown ==>
              && r.state.scroll == d.scrollLeft as real
              && r.animator == StopAnimation(c.animator)
              && (Valid(c.animator) ==> r.animator.frames.pending == map[])
    ensures !c.state.mouseDown ==> r.state.scroll == c.state.scroll && r.animator == c.animator
    ensures r.state.overflow == GetOverflow(d)
    ensures r.state == c.state.(scroll := r.state.scroll, overflow := r.state.overflow)
    ensures r.scrollTimeout == c.scrollTimeout && r.timers == c.timers && r.children == c.children && r.animMs == c.animMs
  {
    var c1 := if c.state.mouseDown
      then c.(animator := StopAnimation(c.animator), state := c.state.(scroll := d.scrollLeft as real))
      else c;
    c1.(state := WithOverflow(c1.state, d))
  }

  /** `componentDidMount`'s one modelled effect: the first overflow update. */
  function OnMount(c: Component, d: Dom): (r: Component)
    ensures r.state.overflow == GetOverflow(d)
    ensures r == c.(state := c.state.(overflow := r.state.overflow))
  {
    c.(state := WithOverflow(c.state, d))
  }

  /**
   * An animation frame fires: the Animator steps and, when it delivers a
   * value, the callback stores it in `state.scroll`.
   */
  function OnAnimationFrame(c: Component, h: nat, now: int, easing: Easing): (r: Component)
    ensures r.animator == OnFrame(c.animator, h, now, easing).next
    ensures h in c.animator.frames.pending && now - c.animator.frames.pending[h].start <= c.animator.frames.pending[h].timeMs ==>
              r.state == c.state.(scroll := c.animator.frames.pending[h].Value(now, easing))
    ensures !(h in c.animator.frames.pending && now - c.animator.frames.pending[h].start <= c.animator.frames.pending[h].timeMs) ==>
              r.state == c.state
    ensures r.scrollTimeout == c.scrollTimeout && r.timers == c.timers && r.children == c.children && r.animMs == c.animMs
  {
    var f := OnFrame(c.animator, h, now, easing);
    match f.callback
    case Some(v) => c.(animator := f.next, state := c.state.(scroll := v))
    case None => c.(animator := f.next)
  }

  // ---------------------------------------------------------------------------
  // Scroll operations

  /**
   * `scrollTo(value)`: with `contents` unset nothing happens; otherwise a tween
   * from `state.scroll` to `value` over `animTime` starts at `now`.
   */
  function ScrollTo(c: Component, contents: Option<Dom>, value: real, now: int): (r: Component)
    ensures contents.None? ==> r == c
    ensures contents.Some? && Valid(c.animator) ==>
              Tweening(r.animator, Run(c.state.scroll, value - c.state.scroll, c.animMs, now))
    ensures Inv(c) ==> Inv(r)
    ensures r.state == c.state && r.scrollTimeout == c.scrollTimeout && r.timers == c.timers
    ensures r.children == c.children && r.animMs == c.animMs
  {
    if contents.None? then c
    else c.(animator := Animate(c.animator, c.state.scroll, value, c.animMs, now))
  }

  /** `scrollBy(amount)`: a tween that moves `state.scroll` by exactly `amount`. */
  function ScrollBy(c: Component, contents: Option<Dom>, amount: real, now: int): (r: Component)
    ensures contents.None? ==> r == c
    ensures contents.Some? && Valid(c.animator) ==>
              && Tweening(r.animator, Run(c.state.scroll, amount, c.animMs, now))
              && r.animator.frames.pending[r.animator.animRef.value].Target() == c.state.scroll + amount
    ensures Inv(c) ==> Inv(r)
    ensures r.state == c.state && r.children == c.children
  {
    ScrollTo(c, contents, c.state.scroll + amount, now)
  }

  /** `scrollToElement`: the child's left edge becomes the target. */
  function ScrollToElement(c: Component, d: Dom, e: Child, now: int): (r: Component)
    ensures Valid(c.animator) ==>
              Tweening(r.animator, Run(c.state.scroll, e.offsetLeft as real - c.state.scroll, c.animMs, now))
    ensures Inv(c) ==> Inv(r)
    ensures r.state == c.state && r.children == c.children
  {
    ScrollTo(c, Some(d), e.offsetLeft as real, now)
  }

  /** `scrollToView(element, offset)`: no request for a visible child, otherwise a request for `ViewTarget`. */
  function ScrollToView(c: Component, d: Dom, e: Child, offset: int, now: int): (r: Component)
    ensures FullyVisible(e, d.scrollLeft, d.clientWidth) ==> r == c
    ensures e.offsetLeft < d.scrollLeft ==> r == ScrollTo(c, Some(d), e.offsetLeft as real, now)
    ensures d.scrollLeft <= e.offsetLeft && e.RightEdge() > d.RightBound() ==>
              r == ScrollTo(c, Some(d), (e.RightEdge() - d.clientWidth + offset) as real, now)
    ensures Inv(c) ==> Inv(r)
  {
    match ViewTarget(d, e, offset)
    case None => c
    case Some(t) => ScrollTo(c, Some(d), t as real, now)
  }

  /** `scrollToCenterOn`: a request that puts the child's midpoint on the window's midpoint. */
  function ScrollToCenterOn(c: Component, d: Dom, e: Child, now: int): (r: Component)
    ensures Valid(c.animator) ==>
              && r.animator.animRef.Some?
              && r.animator.animRef.value in r.animator.frames.pending
              && var t := r.animator.frames.pending[r.animator.animRef.value].Target();
                 t + d.clientWidth as real / 2.0 == e.offsetLeft as real + e.offsetWidth as real / 2.0
    ensures Inv(c) ==> Inv(r)
    ensures r.state == c.state && r.children == c.children
  {
    ScrollTo(c, Some(d), CenterTarget(d, e), now)
  }

  /** `childrenRefs.hasOwnProperty(index)` for a numeric or null index. */
  predicate HasIndex(c: Component, index: Option<int>) {
    index.Some? && 0 <= index.value < |c.children|
  }

  /**
   * `scrollToCenterOnIndex` (also all `componentWillReceiveProps` does with
   * the `centerOn` prop): nothing for null or a missing index.
   */
  function ScrollToCenterOnIndex(c: Component, d: Dom, index: Option<int>, now: int): (r: Component)
    ensures !HasIndex(c, index) ==> r == c
    ensures HasIndex(c, index) ==> r == ScrollToCenterOn(c, d, c.children[index.value], now)
  {
    if HasIndex(c, index) then ScrollToCenterOn(c, d, c.children[index.value], now) else c
  }

  /**
   * `scrollToNext`: nothing when every child ends within the window;
   * otherwise `scrollToView` of the first child past the right bound with
   * offset 20, which always issues a request.
   */
  function ScrollToNext(c: Component, d: Dom, now: int): (r: Component)
    ensures (forall j :: 0 <= j < |c.children| ==> c.children[j].RightEdge() <= d.RightBound()) ==> r == c
    ensures forall i :: FirstPastRight(c.children, d, i) ==>
              && r == ScrollToView(c, d, c.children[i], NextMargin, now)
              && !FullyVisible(c.children[i], d.scrollLeft, d.clientWidth)
  {
    var s := NextScrollable(c.children, d);
    match s.found
    case None => c
    case Some(i) =>
      assert forall k :: FirstPastRight(c.children, d, k) ==> k == i;
      ScrollToView(c, d, c.children[i], NextMargin, now)
  }

  /**
   * `scrollToPrev` as written: the stored children stay reversed; the last
   * child that starts left of the window is scrolled to its left edge, the
   * offset -20 being dropped by `scrollToView`.
   */
  function ScrollToPrev(c: Component, d: Dom, now: int): (r: Component)
    ensures |r.children| == |c.children|
    ensures forall i :: 0 <= i < |c.children| ==> r.children[i] == c.children[|c.children| - 1 - i]
    ensures (forall j :: 0 <= j < |c.children| ==> c.children[j].offsetLeft >= d.scrollLeft) ==>
              r == c.(children := r.children)
    ensures forall i :: LastLeftOf(c.children, d, i) ==>
              r == ScrollTo(c.(children := r.children), Some(d), c.children[i].offsetLeft as real, now)
  {
    var s := PrevScrollable(c.children, d);
    var c1 := c.(children := s.children);
    match s.found
    case None => c1
    case Some(i) =>
      var k := |c.children| - 1 - i;
      assert s.children[i] == c.children[k];
      LastLeftOfUnique(c.children, d, k);
      ScrollToView(c1, d, s.children[i], PrevMargin, now)
  }

  /**
   * `scrollToPrev` as evidently intended: the children keep their order and
   * the previous child is revealed with the 20 px margin.
   */
  function ScrollToPrevIntended(c: Component, d: Dom, now: int): (r: Component)
    ensures r.children == c.children
    ensures (forall j :: 0 <= j < |c.children| ==> c.children[j].offsetLeft >= d.scrollLeft) ==> r == c
    ensures forall i :: LastLeftOf(c.children, d, i) ==>
              r == ScrollTo(c, Some(d), (c.children[i].offsetLeft + PrevMargin) as real, now)
  {
    match PrevChild(c.children, d)
    case None => c
    case Some(i) =>
      LastLeftOfUnique(c.children, d, i);
      ScrollTo(c, Some(d), (c.children[i].offsetLeft + PrevMargin) as real, now)
  }

  // ---------------------------------------------------------------------------
  // The event machine

  /** Everything that can happen to a mounted component. */
  datatype Event =
    | Mounted(contents: Dom)
    | MouseDown(clientX: int, clientY: int, contents: Dom)
    | MouseMove(clientX: int, clientY: int, now: int)
    | MouseUp
    | MouseOut(toElementNull: bool, relatedTargetNull: bool)
    | NativeScroll(contents: Dom)
    | DwellTimer(handle: nat, now: int)
    | AnimationFrame(handle: nat, now: int)
    | Rendered(children: seq<Child>)
    | PropsReceived(centerOn: Option<int>, contents: Dom, now: int)
    | NextClicked(contents: Dom, now: int)
    | PrevClicked(contents: Dom, now: int)

  /**
   * One event, dispatched as the component wires it: `Mounted` to
   * `componentDidMount`, the window's mouse-up and mouse-out listeners, the
   * `contents` element's scroll, mouse-down and mouse-move props, the timer
   * and frame callbacks, `Rendered` to the ref callbacks storing the children
   * by index, `PropsReceived` to `componentWillReceiveProps` (which runs on
   * every props update, whether or not `centerOn` changed), and the two
   * indicator clicks to `scrollToNext` and `scrollToPrev`.
   *
   * React re-renders after every `setState` and every props update, and the
   * ref callbacks then write the children back in rendered order. The step
   * does not do that itself: the environment delivers each re-render as a
   * separate `Rendered` event.
   */
  function Step(c: Component, e: Event, easing: Easing): (r: Component)
    ensures r.animMs == c.animMs
    ensures e.Rendered? ==> r == c.(children := e.children)
    ensures !e.Rendered? && !e.PrevClicked? ==> r.children == c.children
    ensures e.PrevClicked? ==> |r.children| == |c.children|
    ensures !(e.MouseMove? || e.MouseUp? || e.MouseOut? || e.DwellTimer?) ==>
              r.scrollTimeout == c.scrollTimeout && r.timers == c.timers
    ensures e.MouseDown? || e.MouseMove? || e.MouseUp? || e.MouseOut? || e.DwellTimer? || e.Mounted? || e.Rendered? ==>
              r.animator == c.animator
  {
    match e
    case Mounted(d) => OnMount(c, d)
    case MouseDown(x, y, d) => OnMouseDown(c, x, y, d)
    case MouseMove(x, y, now) => OnMouseMove(c, x, y, now)
    case MouseUp => OnMouseUp(c)
    case MouseOut(toNull, relNull) => OnMouseOut(c, toNull, relNull)
    case NativeScroll(d) => OnScroll(c, d)
    case DwellTimer(h, now) => OnDwellTimer(c, h, now)
    case AnimationFrame(h, now) => OnAnimationFrame(c, h, now, easing)
    case Rendered(children) => c.(children := children)
    case PropsReceived(index, d, now) => ScrollToCenterOnIndex(c, d, index, now)
    case NextClicked(d, now) => ScrollToNext(c, d, now)
    case PrevClicked(d, now) => ScrollToPrev(c, d, now)
  }

  /** Every event keeps the invariant. */
  lemma StepKeepsInv(c: Component, e: Event, easing: Easing)
    requires Inv(c)
    ensures Inv(Step(c, e, easing))
  {
  }

  /**
   * `state.scroll` has exactly three writers: the drag (press and move), the
   * native scroll echo while pressed, and a tween tick.
   */
  lemma ScrollWriters(c: Component, e: Event, easing: Easing)
    requires Step(c, e, easing).state.scroll != c.state.scroll
    ensures e.MouseDown? || (e.MouseMove? && c.state.mouseDown) || (e.NativeScroll? && c.state.mouseDown) || e.AnimationFrame?
  {
  }

  function RunEvents(c: Component, events: seq<Event>, easing: Easing): (r: Component)
    ensures r.animMs == c.animMs
    decreases |events|
  {
    if |events| == 0 then c else RunEvents(Step(c, events[0], easing), events[1..], easing)
  }

  /** The invariant holds after any sequence of events. */
  lemma {:induction false} RunKeepsInv(c: Component, events: seq<Event>, easing: Easing)
    requires Inv(c)
    ensures Inv(RunEvents(c, events, easing))
    decreases |events|
  {
    if |events| > 0 {
      StepKeepsInv(c, events[0], easing);
      RunKeepsInv(Step(c, events[0], easing), events[1..], easing);
    }
  }

  /** Every event of the sequence is a mouse move. */
  predicate AllMoves(events: seq<Event>) {
    forall i :: 0 <= i < |events| ==> events[i].MouseMove?
  }

  /**
   * Over any run of mouse moves with the button down, the content follows the
   * mouse: `scroll + lastClientX` does not change.
   */
  lemma {:induction false} DragFollowsMouse(c: Component, events: seq<Event>, easing: Easing)
    requires c.state.mouseDown
    requires AllMoves(events)
    ensures RunEvents(c, events, easing).state.scroll + RunEvents(c, events, easing).state.lastClientX as real
            == c.state.scroll + c.state.lastClientX as real
    ensures RunEvents(c, events, easing).state.mouseDown
    decreases |events|
  {
    if |events| > 0 {
      var next := Step(c, events[0], easing);
      assert AllMoves(events[1..]) by {
        forall i | 0 <= i < |events[1..]| ensures events[1..][i].MouseMove? {
          assert events[1..][i] == events[i + 1];
        }
      }
      DragFollowsMouse(next, events[1..], easing);
    }
  }
}
