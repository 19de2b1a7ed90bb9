# react-scrollable-menu: the scroll controller and tween engine in Dafny

This project models the logic of a horizontally scrollable React container. It has two parts.

- The tween engine `Animator` (src/Animator.js). `animate` cancels any frame still pending, then schedules a frame. Each frame asks the easing curve for a value and hands it to a callback. This repeats while `elapsed <= timeMs`, then stops.
- The controller in `Scrollable` (src/Scrollable.js), without its rendering. It covers:
  - overflow classification;
  - the scroll targets of `scrollToView`, `scrollToCenterOn`, `scrollToElement` and `scrollBy`;
  - the searches for the next and previous partly hidden child;
  - the drag handlers with their 30 px threshold and 200 ms timer slot;
  - the native-scroll handler.

Everything is a pure function from a state, a geometry snapshot and an event to a new state.

## Modules

- `Wrappers` (wrappers.dfy): `Option`, used for JavaScript's `null`.
- `Host` (host.dfy): the browser's `requestAnimationFrame` and `setTimeout` queues. Each request gets a fresh handle, and the queue remembers which requests are pending.
- `Animation` (animation.dfy): `Animator` as the field `animRef` plus the host frame queue. It has:
  - `Animate`, `StopAnimation` and `OnFrame` (the `anim` closure);
  - a `Call` trace with `Replay`;
  - the lemmas about single pending frames and silence after stop or completion.
- `Geometry` (geometry.dfy): the values `getScrollData` returns, `getOverflow`, the targets of `scrollToView` and `scrollToCenterOn`, and the two child searches.
- `Scrollable` (scrollable.dfy): the component. It has:
  - the React state, where `setState` takes effect at once;
  - the timer slot `scrollTimeout` (`null`, a handle, or the sentinel `true`);
  - `childrenRefs` as a `seq` of `{offsetLeft, offsetWidth}`, the Animator and the `animTime` prop;
  - every handler and scroll operation, and an `Event` step function;
  - the invariant that every step keeps.
- `Scenarios` (scenarios.dfy): worked examples on concrete geometry.

Two scroll values are kept apart, as the code keeps them apart:
- `Dom.scrollLeft` is the DOM's `contents.scrollLeft`. `getScrollData` and the searches read it, and it arrives with each event that reads it.
- `State.scroll` is what `scrollTo` and `scrollBy` start from, and what drags and tween ticks write.

Geometry and mouse positions are integers. `State.scroll` and tween values are reals, because `scrollToCenterOn` halves widths and the easing curve returns any number.

## Model

| member | source | states |
|---|---|---|
| `Animation.NewAnimator` | src/Animator.js:4-6 | A new Animator has `animRef` null and no frame pending. |
| `Animation.AtMostOnePending` | src/Animator.js:15-30 | In every reachable Animator at most one frame is pending. |
| `Animation.StopAnimation` | src/Animator.js:33-37 | Stopping leaves no frame pending. It never resets `animRef`, and with `animRef` null it changes nothing. |
| `Animation.Animate` | src/Animator.js:8-31 | `animate` cancels the pending frame before it schedules its own. Afterwards exactly one frame is pending, for the run `(from, to - from, timeMs, now)`. Its handle was never handed out before: it is at least the queue's next handle. No value is delivered. |
| `Animation.AnimateWithDefaults` | src/Animator.js:9-12 | With no options the run goes from 0 to 1 over 1000 ms. |
| `Animation.OnFrame` | src/Animator.js:20-29 | A pending frame with `elapsed <= timeMs` reschedules the same run under a fresh handle and delivers `easing(elapsed, from, diffValue, timeMs)`. A later frame delivers nothing and leaves nothing pending. A frame that is not pending has no effect. |
| `Animation.Apply` | src/Animator.js:8-37 | Only a frame can invoke the callback, and every call keeps the Animator valid. |
| `Animation.Replay` | src/Animator.js:8-37 | Any sequence of calls keeps the Animator valid and delivers at most one value per call. |
| `Animation.SilentUntilAnimate` | src/Animator.js:23-37 | Once nothing is pending, no callback occurs and nothing becomes pending until the next `animate`. This holds after `stopAnimation` and after a run ends. |
| `Animation.TicksComeFromRun` | src/Animator.js:19-25 | Until the next `animate`, every delivered value is the current run's eased value at some elapsed time no later than its duration. It depends on nothing else. |
| `Animation.RestartSupersedes` | src/Animator.js:15-30 | After a second `animate`, only the new run delivers values, so the cancelled run's ticks stop at the restart. |
| `Animation.FirstFrameAtStart` | src/Animator.js:18-25 | A frame that fires at the start time delivers `easing(0, from, to - from, timeMs)`. |
| `Geometry.GetOverflow` | src/Scrollable.js:151-175 | The left side clips iff `scrollLeft > 0`. The right side clips iff `scrollLeft < scrollWidth - clientWidth`, with no clamping. So "both" iff `0 < scrollLeft < maxScroll`, and "none" iff `scrollLeft <= 0 && scrollLeft >= maxScroll`. |
| `Geometry.OverflowClampIrrelevant` | src/Scrollable.js:156 | Clamping `maxScroll` at zero does not change the class while `scrollLeft >= 0`. |
| `Geometry.ViewTarget` | src/Scrollable.js:221-231 | No scroll is requested iff the child lies inside `[scrollLeft, scrollLeft + clientWidth]`. A child left of the window gets its left edge on the left bound, and the offset is ignored. A child past the right edge gets the new right bound at its right edge plus the offset. |
| `Geometry.ViewTargetIsMinimal` | src/Scrollable.js:221-231 | With offset 0, a child narrower than the window ends up fully visible. No other position that shows it moves the window less. |
| `Geometry.CenterTarget` | src/Scrollable.js:209-216 | The target plus half the client width equals the child's midpoint, so the same amount is cut off on both sides. |
| `Geometry.CenterTargetUnclamped` | src/Scrollable.js:209-216 | The center target is not clamped: centering a 100 px first child in a 300 px window asks for -100. |
| `Geometry.Find` | src/Scrollable.js:291-294 | `Array.prototype.find` returns the lowest index that satisfies the predicate, or none when no element does. |
| `Geometry.Reverse` | src/Scrollable.js:310 | `reverse()` puts element `i` at position `n - 1 - i`. |
| `Geometry.NextScrollable` | src/Scrollable.js:282-296 | Returns the lowest-index child whose right edge exceeds `scrollLeft + clientWidth`, or none iff no child does. The list is not changed. |
| `Geometry.PrevScrollable` | src/Scrollable.js:301-316 | Leaves the stored list reversed. Returns the first child of the reversed list with `offsetLeft < scrollLeft`, which is the last such child of the list it was given, or none iff no child starts left of the window. |
| `Geometry.PrevChild` | src/Scrollable.js:301-316 | The intended previous-child search: the last child left of the window, found without changing the list. |
| `Geometry.PrevScrollableFindsPrevChild` | src/Scrollable.js:301-316 | On a single call the in-place search and the intended one find the same child. |
| `Geometry.PrevIgnoresOffset` | src/Scrollable.js:246-251 | The child `scrollToPrev` finds always takes `scrollToView`'s left branch, so its -20 offset has no effect. |
| `Scrollable.NewComponent` | src/Scrollable.js:8-21 | The initial state is idle, with scroll 0 and overflow "none". The timer slot is empty with no timer pending, the Animator is new, `childrenRefs` is empty, and the invariant holds. |
| `Scrollable.AtMostOneDwellTimer` | src/Scrollable.js:131-137 | In every reachable state at most one 200 ms timer is pending. |
| `Scrollable.UpdateOverflow` | src/Scrollable.js:70-76 | `setState` is called iff the computed overflow differs from the stored one, and it writes only `overflow`. |
| `Scrollable.UpdateOverflowIdempotent` | src/Scrollable.js:70-76 | A second update on unchanged geometry writes nothing and changes nothing. |
| `Scrollable.OnMouseDown` | src/Scrollable.js:104-114 | A press records the mouse position, zeroes the deltas and takes the DOM's `scrollLeft` as the drag baseline. The timer slot, `scrolling` and the Animator are untouched. |
| `Scrollable.OnMouseMove` | src/Scrollable.js:119-145 | With the button up nothing changes. Otherwise `scroll` drops by exactly the horizontal move and `lastClientX` becomes `clientX`. With an empty slot, a move of at least 30 px sets `scrolling` and stores the sentinel, and a smaller move arms a fresh 200 ms timer. With an occupied slot nothing timer-related changes. |
| `Scrollable.ClearTimeout` | src/Scrollable.js:83-84 | The slot is emptied and, in a reachable state, no timer is left pending. |
| `Scrollable.OnMouseUp` | src/Scrollable.js:81-86 | From any state the gesture becomes idle, `mouseDown` and `scrolling` become false, and no timer is left. |
| `Scrollable.OnMouseOut` | src/Scrollable.js:91-99 | The timer slot is always cleared. `mouseDown`/`scrolling` are reset only when `toElement` or `relatedTarget` is null. |
| `Scrollable.OnDwellTimer` | src/Scrollable.js:133-137 | A pending, due timer sets `scrolling` and leaves the spent handle in the slot. Anything else changes nothing. In a reachable state it only fires while the button is down. |
| `Scrollable.OnScroll` | src/Scrollable.js:59-65 | While pressed, the DOM's `scrollLeft` becomes `state.scroll` and the tween is stopped. Otherwise neither changes. The overflow is always recomputed. |
| `Scrollable.OnMount` | src/Scrollable.js:38-42 | Mounting only brings `overflow` up to date. |
| `Scrollable.OnAnimationFrame` | src/Scrollable.js:260-268 | A tick within the duration sets `state.scroll` to the run's eased value. Any other frame leaves the state alone. |
| `Scrollable.ScrollTo` | src/Scrollable.js:256-269 | With `contents` unset nothing happens. Otherwise the single pending tween runs from `state.scroll` to the target over `animTime`, and the state is not touched. The invariant is kept. |
| `Scrollable.ScrollBy` | src/Scrollable.js:180-183 | Requests a tween from `state.scroll` that moves it by exactly `amount`. It never reads the DOM, and it keeps the invariant. |
| `Scrollable.ScrollToElement` | src/Scrollable.js:188-197 | Requests a tween to the child's left edge and keeps the invariant. |
| `Scrollable.ScrollToView` | src/Scrollable.js:221-231 | A fully visible child issues no request. A child on the left requests its left edge. A child past the right requests `rightEdge - clientWidth + offset`. The invariant is kept. |
| `Scrollable.ScrollToCenterOn` | src/Scrollable.js:209-216 | The requested target puts the child's midpoint at the window's midpoint, and the invariant is kept. |
| `Scrollable.ScrollToCenterOnIndex` | src/Scrollable.js:199-204 | A null or absent index does nothing. A present index centers on that child. |
| `Scrollable.ScrollToNext` | src/Scrollable.js:236-241 | Does nothing when every child ends within the window. Otherwise it shows the first child past the right bound with offset 20, and that child is never already visible. |
| `Scrollable.ScrollToPrev` | src/Scrollable.js:246-251 | Always leaves the children reversed. It does nothing else when no child starts left of the window. Otherwise it requests the left edge of the last such child, without the -20. |
| `Scrollable.ScrollToPrevIntended` | src/Scrollable.js:246-251 | The intended previous step keeps the children's order and requests the last child's left edge minus 20. |
| `Scrollable.Step` | src/Scrollable.js:318-378 | Each event goes to the handler the component wires it to. These are the `contents` props and indicator clicks in `render`, the ref callbacks that store the children, the window listeners of `componentDidMount` (lines 38-42) and `componentWillReceiveProps` (lines 50-54). In the model only `Rendered` and `PrevClicked` change the children, and `Rendered` changes nothing else. The re-render the code performs after each `setState` or props update is not part of the step; it arrives as its own `Rendered` event. Only mouse moves, mouse-up, mouse-out and the timer touch the timer slot. Mount, render, timer and mouse events never touch the Animator. |
| `Scrollable.RunEvents` | src/Scrollable.js:259 | In the model no event changes the `animTime` every `scrollTo` reads, because the props other than `centerOn` are fixed for the component's life. |
| `Scrollable.StepKeepsInv` | src/Scrollable.js:81-145 | Every event keeps the invariant: at most one frame pending, a pending timer only in the slot and only while pressed, `scrolling` only while pressed, and the sentinel only while scrolling. |
| `Scrollable.ScrollWriters` | src/Scrollable.js:59-130 | `state.scroll` changes only on a press, on a move or native scroll while pressed, or on an animation frame. |
| `Scrollable.RunKeepsInv` | src/Scrollable.js:81-145 | The invariant holds after any sequence of events from a state that satisfies it. |
| `Scrollable.DragFollowsMouse` | src/Scrollable.js:119-130 | Over any series of moves while pressed, `scroll + lastClientX` stays fixed, so the content follows the mouse exactly. |
| `Scenarios.OverflowExamples` | src/Scrollable.js:163-175 | With `maxScroll` 100: scroll 0 gives "right", 100 gives "left", 50 gives "both". With `maxScroll` 0 the class is "none". |
| `Scenarios.NextWalksTheRow` | src/Scrollable.js:236-241 | Five 200 px children 20 px apart in a 300 px window: successive `scrollToNext` requests are 140, 360, 580 and 800. The last is past `maxScroll` 700. |
| `Scenarios.DragPastThreshold` | src/Scrollable.js:138-144 | A press followed by a 40 px move drags at once and stores the sentinel. |
| `Scenarios.DragByDwell` | src/Scrollable.js:131-137 | A press followed by a 5 px move is still pressed, and becomes a drag when the timer fires at 250 ms. |
| `Scenarios.PrevReversalRedirectsNext` | src/Scrollable.js:310 | A `scrollToPrev` that requests nothing still reverses the children. A `scrollToNext` called before the next re-render then asks for 360 instead of 140. |
| `Scenarios.RerenderRestoresNext` | src/Scrollable.js:354-360 | Between two indicator clicks, the mouse-up's re-render stores the children in rendered order again, so the second click asks for 140. |
| `Scenarios.IntendedPrevKeepsNext` | src/Scrollable.js:301-316 | With the intended search the children keep their order, and `scrollToNext` still asks for 140. |
| `Scenarios.PrevMarginDropped` | src/Scrollable.js:246-251 | At scroll 300 the code requests 220 for the previous child. The intended request is 200. |

## Behaviour worth noting

- `maxScroll` is `scrollWidth - clientWidth`, and it is not clamped at zero. `Geometry.OverflowClampIrrelevant` shows this does not matter while `scrollLeft` is not negative.
- A mouse move does not stop a running tween. Among the handlers, only `_onScroll` stops it, and only while the button is down. Every `scrollTo` also cancels the running tween, through `animate`'s call to `stopAnimation`.
- The 30 px threshold applies to the horizontal delta of a single move. The distance since the press plays no part.
- The timer slot can hold the value `true` instead of a timer. A fired timer's handle stays in the slot until mouse-up or mouse-out. At most one timer is pending at a time (`Scrollable.AtMostOneDwellTimer`). A mouse-out that does not end the gesture still empties the slot, so the next small move arms another timer. Because the mouse-out listener is on `window`, that happens whenever the mouse crosses between elements.
- `componentWillReceiveProps` compares nothing: it reads `centerOn` from the incoming props only, so every props update with a non-null `centerOn` re-centres and restarts the tween, whether or not `centerOn` changed.
- `scrollTo` starts from `state.scroll`, not from the DOM's `scrollLeft`, and no target is clamped to `[0, maxScroll]`.
- The event step (`Scrollable.Step`) uses the as-written `scrollToPrev`. The corrected `Scrollable.ScrollToPrevIntended` is stated beside it.

## Left out

- Rendering: JSX, CSS class assembly, `showOverflowIndicators` and the unfinished `getContainerClasses` are presentation only.
- `componentDidUpdate` copies `state.scroll` into `contents.scrollLeft`, and the browser clamps that value. This is DOM plumbing the model cannot see. The DOM's `scrollLeft` instead arrives with each event that reads it.
- Listener registration and removal in `componentDidMount`/`componentWillUnmount` is DOM plumbing.
- `componentWillReceiveProps` is modelled only as its call to `scrollToCenterOnIndex` (event `PropsReceived`).
- Scrollable.Step: React's re-render after each `setState` and each props update is not folded into the step. The code re-renders after a mouse-down, a move while pressed, a mouse-up, a mouse-out that ends the gesture, a fired timer, a native scroll while pressed or one that changes the overflow class, a tween tick and every props update; its ref callbacks then store the children in rendered order. The model leaves that re-render to the environment as a `Rendered` event, so a run that omits it can keep a reversed list the code would already have restored.
- Scrollable.RunEvents: the props other than `centerOn` stay fixed for the component's life. A new `animTime` (or `easing`) passed by the parent in a props update is not modelled, although `scrollTo` reads `animTime` afresh on every call.
- `setState` is applied at once. React's batching is not modelled.
- `requestAnimationFrame`, `setTimeout` and `Date` are modelled as explicit events (`AnimationFrame`, `DwellTimer`, each with a `now`) over queues that hand out fresh handles. A frame or timer that is not pending has no effect.
- The easing curves in `./easing` are not part of this model; they are floating-point. Easing is an uninterpreted function, supplied with each frame event. A run that keeps the easing it started with after the `easing` prop changes is not modelled.
- The `time` option in seconds and `time * 1000` are not modelled. `animate` takes `timeMs` as a natural number, and the `animTime` prop is kept in milliseconds (default 300).
- `e.preventDefault()` and the `deltaY`/`lastClientY` fields have no effect on the logic. The fields are tracked but nothing reads them.
- `hasOwnProperty` is modelled for numeric or null indices only. Keys such as `"length"` or numeric strings are not modelled.
- `childrenRefs` holds each child's measured geometry. `ReactDOM.findDOMNode`, null refs and unmounted children are not modelled. The ref callbacks in `render` become the event `Rendered`, which replaces the whole list. Stale entries left behind when the list shrinks are not modelled.
- The geometry operations need a mounted `contents`; in the code they would throw without one. Only `scrollTo` and `scrollBy` take an optional `contents`, because only they check it.
- Arithmetic is exact: integers for pixels and milliseconds, reals for scroll values. Floating-point rounding is not modelled.
- src/index.js is a demo page with no logic.

## Findings

| source | as written | input that shows it | evidently intended | confidence | as-written member | corrected member |
|---|---|---|---|---|---|---|
| src/Scrollable.js:310 | `getPrevScrollableChildren` calls `reverse()` on `childrenRefs` itself. The stored order stays reversed until a re-render writes the refs back. | Children at 0, 220 and 440, each 200 wide, in a 300 px window at scroll 0. `scrollToPrev` requests nothing but reverses the list. A `scrollToNext` called through a ref before the next re-render then requests 360 and skips child 1. A props update that arrives first likewise centres on the child at the reversed index, since `componentWillReceiveProps` runs before its render. Two clicks on the indicators do not show it: the mouse-up between them re-renders (`Scenarios.RerenderRestoresNext`). | Search in reverse order without changing the list, so `scrollToNext` requests 140. | not executed; high | `Scenarios.PrevReversalRedirectsNext` | `Scrollable.ScrollToPrevIntended` |
| src/Scrollable.js:246-251 | `scrollToPrev` passes offset -20. The child it finds always starts left of the window, so `scrollToView` takes the branch that ignores the offset. | The same children at scroll 300. The request is 220, flush with the left edge. | Reveal the previous child with the same 20 px margin `scrollToNext` leaves: request 200. | not executed; medium | `Scenarios.PrevMarginDropped` | `Scrollable.ScrollToPrevIntended` |
