/**
 * The geometry half of src/Scrollable.js: what `getScrollData` reads off the
 * scrolling `contents` element, the overflow classification, the scroll
 * targets of `scrollToView`/`scrollToCenterOn`, and the two child searches.
 * Everything here is a pure function of a geometry snapshot.
 */
module Geometry {
  import opened Wrappers

  /** The `contents` element as `getScrollData` sees it (the DOM's `scrollLeft`, not `state.scroll`). */
  datatype Dom = Dom(scrollLeft: int, scrollWidth: int, clientWidth: int) {

    /** `scrollWidth - clientWidth`, deliberately not clamped at zero. */
    function MaxScroll(): int {
      scrollWidth - clientWidth
    }

    function RightBound(): int {
      scrollLeft + clientWidth
    }
  }

  /** The part of a child's DOM node the searches read. */
  datatype Child = Child(offsetLeft: int, offsetWidth: int) {

    function RightEdge(): int {
      offsetLeft + offsetWidth
    }
  }

  /** The child lies inside a window `[left, left + width]`. */
  predicate FullyVisible(e: Child, left: int, width: int) {
    left <= e.offsetLeft && e.RightEdge() <= left + width
  }

  /** The four overflow strings "both", "left", "right" and "none". */
  datatype Overflow = Both | Left | Right | NoOverflow {

    /** Content is hidden beyond the left edge. */
    predicate ClipsLeft() {
      this == Both || this == Left
    }

    /** Content is hidden beyond the right edge. */
    predicate ClipsRight() {
      this == Both || this == Right
    }
  }

  /**
   * `getOverflow`: the left side overflows iff content is scrolled away to the
   * left, the right side iff the scroll has not reached `maxScroll`.
   */
  function GetOverflow(d: Dom): (r: Overflow)
    ensures r.ClipsLeft() <==> d.scrollLeft > 0
    ensures r.ClipsRight() <==> d.scrollLeft < d.MaxScroll()
    ensures r == Both <==> 0 < d.scrollLeft < d.MaxScroll()
    ensures r == NoOverflow <==> d.scrollLeft <= 0 && d.scrollLeft >= d.MaxScroll()
  {
    if d.scrollLeft > 0 && d.scrollLeft < d.MaxScroll() then Both
    else if d.scrollLeft > 0 then Left
    else if d.scrollLeft < d.MaxScroll() then Right
    else NoOverflow
  }

  /**
   * Clamping `maxScroll` at zero, as a reader might expect, changes nothing
   * while `scrollLeft` is not negative.
   */
  lemma OverflowClampIrrelevant(d: Dom)
    requires d.scrollLeft >= 0
    ensures var clamped := d.(scrollWidth := if d.scrollWidth < d.clientWidth then d.clientWidth else d.scrollWidth);
            clamped.MaxScroll() >= 0 && GetOverflow(d) == GetOverflow(clamped)
  {
  }

  /**
   * The scroll target of `scrollToView(element, offset)`, or None when no
   * `scrollTo` is issued. A child left of the window gets its left edge on the
   * left bound (the offset is ignored); a child past the right bound gets the
   * right bound moved to its right edge plus the offset.
   */
  function ViewTarget(d: Dom, e: Child, offset: int): (r: Option<int>)
    ensures r.None? <==> FullyVisible(e, d.scrollLeft, d.clientWidth)
    ensures e.offsetLeft < d.scrollLeft ==> r == Some(e.offsetLeft)
    ensures d.scrollLeft <= e.offsetLeft && e.RightEdge() > d.RightBound() ==>
              r.Some? && r.value + d.clientWidth == e.RightEdge() + offset
  {
    var leftBound := d.scrollLeft;
    var rightBound := d.scrollLeft + d.clientWidth;
    if e.offsetLeft < leftBound then Some(e.offsetLeft)
    else if e.offsetLeft + e.offsetWidth > rightBound then
      var delta := e.offsetLeft + e.offsetWidth - rightBound;
      Some(leftBound + delta + offset)
    else None
  }

  /**
   * Without an offset, the target reveals a child that fits in the window,
   * and moves the window no further than any other position that reveals it.
   */
  lemma ViewTargetIsMinimal(d: Dom, e: Child, p: int)
    requires e.offsetWidth <= d.clientWidth
    requires ViewTarget(d, e, 0).Some?
    requires FullyVisible(e, p, d.clientWidth)
    ensures var t := ViewTarget(d, e, 0).value;
            FullyVisible(e, t, d.clientWidth) && Dist(t, d.scrollLeft) <= Dist(p, d.scrollLeft)
  {
  }

  function Dist(a: int, b: int): nat {
    if a < b then b - a else a - b
  }

  /**
   * The target of `scrollToCenterOn`: the child's midpoint lands on the
   * window's midpoint, so equal parts are cut off on both sides when it is
   * wider than the window. It is not clamped to `[0, maxScroll]`.
   */
  function CenterTarget(d: Dom, e: Child): (r: real)
    ensures r + d.clientWidth as real / 2.0 == e.offsetLeft as real + e.offsetWidth as real / 2.0
    ensures e.offsetLeft as real - r == (r + d.clientWidth as real) - e.RightEdge() as real
  {
    var ofw := (e.offsetWidth - d.clientWidth) as real / 2.0;
    e.offsetLeft as real + ofw
  }

  /** Centering the first child of a wide window asks for a negative scroll. */
  lemma CenterTargetUnclamped()
    ensures CenterTarget(Dom(0, 1000, 300), Child(0, 100)) == -100.0
  {
  }

  /** `Array.prototype.find`, returning the index of the first match. */
  function Find(cs: seq<Child>, p: Child -> bool): (r: Option<nat>)
    ensures r.Some? ==> r.value < |cs| && p(cs[r.value])
    ensures r.Some? ==> forall j :: 0 <= j < r.value ==> !p(cs[j])
    ensures r.None? ==> forall j :: 0 <= j < |cs| ==> !p(cs[j])
  {
    if |cs| == 0 then None
    else if p(cs[0]) then Some(0)
    else match Find(cs[1..], p)
      case None => None
      case Some(i) => Some(i + 1)
  }

  /** `Array.prototype.reverse`, which reverses in place and returns the same array. */
  function Reverse(cs: seq<Child>): (r: seq<Child>)
    ensures |r| == |cs|
    ensures forall i :: 0 <= i < |cs| ==> r[i] == cs[|cs| - 1 - i]
  {
    if |cs| == 0 then [] else Reverse(cs[1..]) + [cs[0]]
  }

  /** The children list a search leaves behind, and the index of the child it found in that list. */
  datatype Search = Search(children: seq<Child>, found: Option<nat>)

  /** `i` is the first child whose right edge is beyond the window's right bound. */
  predicate FirstPastRight(cs: seq<Child>, d: Dom, i: int) {
    && 0 <= i < |cs|
    && cs[i].RightEdge() > d.RightBound()
    && forall j :: 0 <= j < i ==> cs[j].RightEdge() <= d.RightBound()
  }

  /** `getNextScrollableChildren`: the lowest-index child not wholly left of the right bound. */
  function NextScrollable(cs: seq<Child>, d: Dom): (r: Search)
    ensures r.children == cs
    ensures r.found.Some? ==> FirstPastRight(cs, d, r.found.value)
    ensures r.found.None? <==> forall j :: 0 <= j < |cs| ==> cs[j].RightEdge() <= d.RightBound()
  {
    Search(cs, Find(cs, (c: Child) => c.RightEdge() > d.RightBound()))
  }

  /** `i` is the last child, in the given order, that starts left of the window. */
  predicate LastLeftOf(cs: seq<Child>, d: Dom, i: int) {
    && 0 <= i < |cs|
    && cs[i].offsetLeft < d.scrollLeft
    && forall j :: i < j < |cs| ==> cs[j].offsetLeft >= d.scrollLeft
  }

  /**
   * `getPrevScrollableChildren`: reverses the stored list (the reversal
   * stays) and returns the first child of the reversed list that starts left
   * of the window, which is the last such child of the list it was given.
   */
  function PrevScrollable(cs: seq<Child>, d: Dom): (r: Search)
    ensures |r.children| == |cs|
    ensures forall i :: 0 <= i < |cs| ==> r.children[i] == cs[|cs| - 1 - i]
    ensures r.found.None? <==> forall j :: 0 <= j < |cs| ==> cs[j].offsetLeft >= d.scrollLeft
    ensures r.found.Some? ==> r.found.value < |cs| && LastLeftOf(cs, d, |cs| - 1 - r.found.value)
  {
    var reversed := Reverse(cs);
    var found := Find(reversed, (c: Child) => c.offsetLeft < d.scrollLeft);
    if found.Some? then
      var i := found.value;
      assert forall j :: |cs| - 1 - i < j < |cs| ==> cs[j] == reversed[|cs| - 1 - j];
      Search(reversed, found)
    else
      assert forall j :: 0 <= j < |cs| ==> cs[j] == reversed[|cs| - 1 - j];
      Search(reversed, found)
  }

  /** `Array.prototype.find` on the reversed order without reversing: the last match. */
  function FindLast(cs: seq<Child>, p: Child -> bool): (r: Option<nat>)
    ensures r.Some? ==> r.value < |cs| && p(cs[r.value])
    ensures r.Some? ==> forall j :: r.value < j < |cs| ==> !p(cs[j])
    ensures r.None? ==> forall j :: 0 <= j < |cs| ==> !p(cs[j])
  {
    if |cs| == 0 then None
    else if p(cs[|cs| - 1]) then Some(|cs| - 1)
    else FindLast(cs[..|cs| - 1], p)
  }

  /** The previous-child search as evidently intended: a reverse iteration that leaves the list alone. */
  function PrevChild(cs: seq<Child>, d: Dom): (r: Option<nat>)
    ensures r.Some? ==> LastLeftOf(cs, d, r.value)
    ensures r.None? <==> forall j :: 0 <= j < |cs| ==> cs[j].offsetLeft >= d.scrollLeft
  {
    FindLast(cs, (c: Child) => c.offsetLeft < d.scrollLeft)
  }

  /** The last child left of the window is unique. */
  lemma LastLeftOfUnique(cs: seq<Child>, d: Dom, k: int)
    requires LastLeftOf(cs, d, k)
    ensures forall i :: LastLeftOf(cs, d, i) ==> i == k
  {
  }

  /**
   * On one call, the in-place search and the intended one pick the same
   * child; they differ only in the order the stored list is left in.
   */
  lemma PrevScrollableFindsPrevChild(cs: seq<Child>, d: Dom)
    ensures var s := PrevScrollable(cs, d);
            && (s.found.None? <==> PrevChild(cs, d).None?)
            && (s.found.Some? ==> PrevChild(cs, d) == Some(|cs| - 1 - s.found.value)
                                  && s.children[s.found.value] == cs[PrevChild(cs, d).value])
  {
  }

  /**
   * The previous child always starts left of the window, so `scrollToView`
   * takes its left branch and any offset passed with it is dropped.
   */
  lemma PrevIgnoresOffset(cs: seq<Child>, d: Dom, offset: int)
    requires PrevScrollable(cs, d).found.Some?
    ensures var s := PrevScrollable(cs, d);
            ViewTarget(d, s.children[s.found.value], offset) == Some(s.children[s.found.value].offsetLeft)
  {
  }
}
