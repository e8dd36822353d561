/** The swipe-panel gesture controller of the web UI's main view: a touch
    drag moves the panel track, at most one animation frame is pending and it
    applies the offset of the first move since the last frame, and a release
    switches to a neighbouring panel when the drag went far enough.
    Coordinates and widths are reals; the browser's touch events, animation
    frames and the container measurement are the methods' inputs. */
module SwipePanels {
  import opened Wrappers
  import opened Seqs

  /** The panels, in display order. */
  const TABS: seq<string> := ["status", "config", "modules", "info"]

  function Abs(x: real): real {
    if x < 0.0 then -x else x
  }

  /** The drag distance a release needs: a third of the container width, or
      80 when that is 0 (JavaScript's `||` replaces only a falsy value, so this
      is not a maximum with 80). */
  function Threshold(containerWidth: real): (r: real)
    requires containerWidth >= 0.0
    ensures r > 0.0
    ensures containerWidth > 0.0 ==> r == containerWidth * 0.33
    ensures containerWidth == 0.0 ==> r == 80.0
  {
    var scaled := containerWidth * 0.33;
    if scaled == 0.0 then 80.0 else scaled
  }

  /** A narrow container gets a threshold below 80. */
  lemma ThresholdNotAMaximum()
    ensures Threshold(100.0) == 33.0 && Threshold(100.0) < 80.0
  {
  }

  /** The panel a release settles on. */
  function NextIndex(current: nat, count: nat, offset: real, threshold: real): (r: nat)
    requires current < count
    ensures r < count
    ensures r == current + 1 <==> offset < -threshold && current < count - 1
    ensures r + 1 == current <==> !(offset < -threshold && current < count - 1) && offset > threshold && current > 0
    ensures r == current || r == current + 1 || r + 1 == current
  {
    if offset < -threshold && current < count - 1 then current + 1
    else if offset > threshold && current > 0 then current - 1
    else current
  }

  /** With a positive threshold, a release that did not pass it in either
      direction keeps the panel. */
  lemma ShortDragKeepsPanel(current: nat, count: nat, offset: real, threshold: real)
    requires current < count && threshold > 0.0
    requires -threshold <= offset <= threshold
    ensures NextIndex(current, count, offset, threshold) == current
  {
  }

  /** The offset a frame shows: a drag past the first or the last panel moves
      a third as far. */
  function Dampen(index: nat, count: nat, diffX: real): (r: real)
    ensures Abs(r) <= Abs(diffX)
    ensures (r < 0.0 <==> diffX < 0.0) && (r > 0.0 <==> diffX > 0.0)
    ensures (index == 0 && diffX > 0.0) || (index == count - 1 && diffX < 0.0) ==> r * 3.0 == diffX
    ensures !((index == 0 && diffX > 0.0) || (index == count - 1 && diffX < 0.0)) ==> r == diffX
  {
    if (index == 0 && diffX > 0.0) || (index == count - 1 && diffX < 0.0) then diffX / 3.0 else diffX
  }

  /** The track's position in percent: panel `index` of `count` in view. */
  function BaseTranslate(index: nat, count: nat): (r: real)
    requires index < count
    ensures -100.0 < r <= 0.0
    ensures index == 0 <==> r == 0.0
  {
    var c := count as real;
    var i := index as real;
    var width := 100.0 / c;
    assert c * width == 100.0;
    ScaleMonotone(i, c - 1.0, width);
    assert (c - 1.0) * width == 100.0 - width;
    i * -width
  }

  lemma ScaleMonotone(a: real, b: real, w: real)
    requires a <= b && w > 0.0
    ensures a * w <= b * w
  {
  }

  /** The track's transition: none while dragging, so it follows the finger,
      and eased otherwise. */
  function Transition(isDragging: bool): (r: string)
    ensures r == "none" <==> isDragging
  {
    if isDragging then "none" else "transform 0.4s cubic-bezier(0.2, 1, 0.2, 1)"
  }

  class SwipeController {
    var activeTab: string
    var dragOffset: real
    var isDragging: bool
    var containerWidth: real
    var touchStartX: real
    var touchStartY: real
    var ticking: bool
    /** The scheduled animation frame, with the horizontal move it captured. */
    var pendingFrame: Option<real>

    /** The active tab is a panel, a frame is pending exactly when `ticking`
        is set, and the remembered width is not negative. */
    predicate Valid()
      reads this
    {
      activeTab in TABS && (ticking <==> pendingFrame.Some?) && containerWidth >= 0.0
    }

    function ActiveIndex(): (r: nat)
      reads this
      requires Valid()
      ensures r < |TABS| && TABS[r] == activeTab
    {
      FirstIndex(TABS, activeTab)
    }

    constructor ()
      ensures Valid()
      ensures activeTab == "status" && dragOffset == 0.0 && !isDragging && containerWidth == 0.0
      ensures touchStartX == 0.0 && touchStartY == 0.0 && pendingFrame == None
    {
      activeTab := "status";
      dragOffset := 0.0;
      isDragging := false;
      containerWidth := 0.0;
      touchStartX := 0.0;
      touchStartY := 0.0;
      ticking := false;
      pendingFrame := None;
    }

    /** `handleTouchStart`: a drag begins at the touch point; any pending
        frame is cancelled. */
    method TouchStart(x: real, y: real)
      requires Valid()
      modifies this
      ensures Valid()
      ensures isDragging && dragOffset == 0.0 && !ticking && pendingFrame == None
      ensures touchStartX == x && touchStartY == y
      ensures activeTab == old(activeTab) && containerWidth == old(containerWidth)
    {
      touchStartX := x;
      touchStartY := y;
      isDragging := true;
      dragOffset := 0.0;
      ticking := false;
      pendingFrame := None;
    }

    /** `handleTouchMove`: ignored unless dragging and mostly horizontal (a
        tie counts as horizontal); otherwise the default scrolling is
        prevented (when the event allows it) and, unless a frame is already
        pending, a frame is scheduled with this move's horizontal distance.
        The offset itself only changes when the frame runs. */
    method TouchMove(x: real, y: real, cancelable: bool) returns (prevented: bool)
      requires Valid()
      modifies this
      ensures Valid()
      ensures !old(isDragging) || Abs(y - old(touchStartY)) > Abs(x - old(touchStartX)) ==>
        !prevented && unchanged(this)
      ensures old(isDragging) && Abs(y - old(touchStartY)) <= Abs(x - old(touchStartX)) ==>
        prevented == cancelable && ticking
        && pendingFrame == (if old(pendingFrame).None? then Some(x - old(touchStartX)) else old(pendingFrame))
      ensures dragOffset == old(dragOffset) && isDragging == old(isDragging) && activeTab == old(activeTab)
      ensures touchStartX == old(touchStartX) && touchStartY == old(touchStartY)
      ensures containerWidth == old(containerWidth)
    {
      if !isDragging {
        return false;
      }
      var diffX := x - touchStartX;
      var diffY := y - touchStartY;
      if Abs(diffY) > Abs(diffX) {
        return false;
      }
      prevented := cancelable;
      if !ticking {
        ticking := true;
        pendingFrame := Some(diffX);
      }
    }

    /** The scheduled frame runs: it clears itself and, while still dragging,
        shows the captured distance, damped at the ends. */
    method RunFrame()
      requires Valid() && pendingFrame.Some?
      modifies this
      ensures Valid()
      ensures !ticking && pendingFrame == None
      ensures old(isDragging) ==> dragOffset == Dampen(old(ActiveIndex()), |TABS|, old(pendingFrame).value)
      ensures !old(isDragging) ==> dragOffset == old(dragOffset)
      ensures isDragging == old(isDragging) && activeTab == old(activeTab)
      ensures touchStartX == old(touchStartX) && touchStartY == old(touchStartY)
      ensures containerWidth == old(containerWidth)
    {
      var diffX := pendingFrame.value;
      ticking := false;
      pendingFrame := None;
      if !isDragging {
        return;
      }
      dragOffset := Dampen(ActiveIndex(), |TABS|, diffX);
    }

    /** `handleTouchEnd`, also run on touch cancel: outside a drag nothing
        happens; otherwise the drag ends, the pending frame is cancelled, the
        container is measured when it exists, the panel moves by at most one
        and the offset returns to 0. */
    method TouchEnd(measuredWidth: Option<real>)
      requires Valid()
      requires measuredWidth.Some? ==> measuredWidth.value >= 0.0
      modifies this
      ensures Valid()
      ensures !old(isDragging) ==> unchanged(this)
      ensures old(isDragging) ==>
        !isDragging && dragOffset == 0.0 && !ticking && pendingFrame == None
        && containerWidth == (if measuredWidth.Some? then measuredWidth.value else old(containerWidth))
        && activeTab == TABS[NextIndex(old(ActiveIndex()), |TABS|, old(dragOffset), Threshold(containerWidth))]
      ensures touchStartX == old(touchStartX) && touchStartY == old(touchStartY)
    {
      if !isDragging {
        return;
      }
      isDragging := false;
      if pendingFrame.Some? {
        pendingFrame := None;
        ticking := false;
      }
      if measuredWidth.Some? {
        containerWidth := measuredWidth.value;
      }
      var threshold := Threshold(containerWidth);
      var currentIndex := ActiveIndex();
      var nextIndex := NextIndex(currentIndex, |TABS|, dragOffset, threshold);
      if nextIndex != currentIndex {
        activeTab := TABS[nextIndex];
      }
      dragOffset := 0.0;
    }

    /** A tap on a navigation-bar button (`onTabChange`): the bar only
        offers the panels, and the tapped one becomes active; the drag
        state is untouched. */
    method SelectTab(tab: string)
      requires Valid() && tab in TABS
      modifies this
      ensures Valid()
      ensures activeTab == tab && ActiveIndex() == FirstIndex(TABS, tab)
      ensures dragOffset == old(dragOffset) && isDragging == old(isDragging)
      ensures touchStartX == old(touchStartX) && touchStartY == old(touchStartY)
      ensures containerWidth == old(containerWidth) && ticking == old(ticking)
      ensures pendingFrame == old(pendingFrame)
    {
      activeTab := tab;
    }

    /** The track position for the active panel. */
    function TrackPercent(): (r: real)
      reads this
      requires Valid()
      ensures -100.0 < r <= 0.0
    {
      BaseTranslate(ActiveIndex(), |TABS|)
    }
  }
}
