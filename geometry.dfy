/**
 Window arithmetic of the rearranging list view: whether an adapter position
 is on screen, which child shows it, and the start and end rectangles of the
 hover cell that animates a moved row. All coordinates are relative to the
 list, in pixels.
 */
module Geometry {

  const PositionNone: int := -1

  /**
   The visible window of the list: rows firstVisible .. firstVisible +
   childCount - 1 are children on screen; height is the list's height and
   dividerHeight the gap between rows.
   */
  datatype ListLayout = ListLayout(firstVisible: int, childCount: nat, height: int, dividerHeight: int)

  /**
   The row view the adapter produced for a moved row, after measuring: its
   measured size and its position in the list before the bitmap capture.
   */
  datatype RowView = RowView(measuredWidth: int, measuredHeight: int, top: int, left: int)

  datatype Rect = Rect(left: int, top: int, right: int, bottom: int)

  /** The snapshot of one moved row: where it starts and where it ends. */
  datatype HoverCell = HoverCell(initialBounds: Rect, endBounds: Rect)

  function LastVisible(l: ListLayout): int
  {
    l.firstVisible + l.childCount - 1
  }

  predicate InWindow(p: int, l: ListLayout)
  {
    l.firstVisible <= p <= LastVisible(l)
  }

  /** positionsOutOfView: neither the old nor the new position is on screen. */
  function PositionsOutOfView(currentPosition: int, newPosition: int, l: ListLayout): (r: bool)
    ensures r <==> !InWindow(currentPosition, l) && !InWindow(newPosition, l)
  {
    var first := l.firstVisible;
    var last := LastVisible(l);
    || (currentPosition < first && newPosition < first)
    || (currentPosition > last && newPosition > last)
    || (currentPosition < first && newPosition > last)
    || (currentPosition > last && newPosition < first)
  }

  /** The index among the children of the row at an adapter position, or -1 off screen. */
  function ChildPosition(currentPosition: int, l: ListLayout): (r: int)
    ensures !InWindow(currentPosition, l) ==> r == PositionNone
    ensures InWindow(currentPosition, l) ==>
      0 <= r < l.childCount && l.firstVisible + r == currentPosition
  {
    if currentPosition > LastVisible(l) || currentPosition < l.firstVisible then PositionNone
    else currentPosition - l.firstVisible
  }

  /**
   Where a moved row starts: its own place when it is on screen; otherwise
   just above the list, or in the last visible slot, with the measured size.
   */
  function StartBounds(currentPos: int, l: ListLayout, v: RowView): (r: Rect)
    ensures r.right - r.left == v.measuredWidth && r.bottom - r.top == v.measuredHeight
    ensures currentPos < l.firstVisible ==> r.left == 0 && r.bottom == 0
    ensures currentPos > LastVisible(l) ==> r.left == 0 && r.top == (l.childCount - 1) * v.measuredHeight
    ensures InWindow(currentPos, l) ==> r.left == v.left && r.top == v.top
  {
    if currentPos < l.firstVisible then
      Rect(0, -v.measuredHeight, v.measuredWidth, 0)
    else if currentPos > LastVisible(l) then
      Rect(0, (l.childCount - 1) * v.measuredHeight, v.measuredWidth, l.childCount * v.measuredHeight)
    else
      Rect(v.left, v.top, v.left + v.measuredWidth, v.top + v.measuredHeight)
  }

  /**
   The end rectangle as the source computes it. The bitmap capture lays the
   view out at (0, 0, measuredWidth, measuredHeight) first, so the view's
   height used for the off-screen cases is its measured height. For an
   on-screen new position the top is newPos * (height + divider), counted
   from adapter position 0 rather than from the first visible row.
   */
  function EndBoundsAsWritten(start: Rect, newPos: int, l: ListLayout, v: RowView): Rect
  {
    var slot := v.measuredHeight + l.dividerHeight;
    if newPos < l.firstVisible then Rect(start.left, -v.measuredHeight, start.right, 0)
    else if newPos > LastVisible(l) then Rect(start.left, l.height, start.right, l.height + v.measuredHeight)
    else Rect(start.left, newPos * slot, start.right, (newPos + 1) * slot)
  }

  /** The as-written end keeps the start's horizontal edges and moves by whole slots. */
  lemma EndAsWrittenShape(start: Rect, newPos: int, l: ListLayout, v: RowView)
    ensures var r := EndBoundsAsWritten(start, newPos, l, v);
      && r.left == start.left && r.right == start.right
      && (newPos < l.firstVisible ==> r.bottom == 0 && r.bottom - r.top == v.measuredHeight)
      && (newPos > LastVisible(l) ==> r.top == l.height && r.bottom - r.top == v.measuredHeight)
      && (InWindow(newPos, l) ==>
            r.top == newPos * (v.measuredHeight + l.dividerHeight)
            && r.bottom - r.top == v.measuredHeight + l.dividerHeight)
  {
  }

  /**
   When the list is scrolled, a row that ends on screen is sent below the
   visible rows: first visible 5, three children, rows 90 px high with a
   10 px divider, new position 7 (the last visible row) ends at top 700,
   while the three visible slots span 0 .. 300.
   */
  lemma EndAsWrittenLeavesScrolledList()
    ensures var l := ListLayout(5, 3, 300, 10);
      var v := RowView(480, 90, 200, 0);
      var r := EndBoundsAsWritten(StartBounds(6, l, v), 7, l, v);
      InWindow(7, l) && r.top == 700 && r.top >= l.childCount * (v.measuredHeight + l.dividerHeight)
  {
  }

  /** The end rectangle with the top counted from the first visible row. */
  function EndBounds(start: Rect, newPos: int, l: ListLayout, v: RowView): (r: Rect)
    ensures r.left == start.left && r.right == start.right
    ensures newPos < l.firstVisible ==> r.bottom == 0 && r.bottom - r.top == v.measuredHeight
    ensures newPos > LastVisible(l) ==> r.top == l.height && r.bottom - r.top == v.measuredHeight
    ensures InWindow(newPos, l) ==>
      r.top == (newPos - l.firstVisible) * (v.measuredHeight + l.dividerHeight)
      && r.bottom - r.top == v.measuredHeight + l.dividerHeight
  {
    var slot := v.measuredHeight + l.dividerHeight;
    var k := newPos - l.firstVisible;
    assert (k + 1) * slot == k * slot + slot;
    if newPos < l.firstVisible then Rect(start.left, -v.measuredHeight, start.right, 0)
    else if newPos > LastVisible(l) then Rect(start.left, l.height, start.right, l.height + v.measuredHeight)
    else Rect(start.left, k * slot, start.right, (k + 1) * slot)
  }

  /** With the corrected top, a row that ends on screen ends inside the visible slots. */
  lemma EndWithinVisibleSlots(start: Rect, newPos: int, l: ListLayout, v: RowView)
    ensures var r := EndBounds(start, newPos, l, v);
      InWindow(newPos, l) && v.measuredHeight + l.dividerHeight >= 0 ==>
      0 <= r.top && r.bottom <= l.childCount * (v.measuredHeight + l.dividerHeight)
  {
  }

  /** Scrolled to the top, the source's end rectangle and the corrected one coincide. */
  lemma EndBoundsAgreeAtTop(start: Rect, newPos: int, l: ListLayout, v: RowView)
    requires l.firstVisible == 0
    ensures EndBoundsAsWritten(start, newPos, l, v) == EndBounds(start, newPos, l, v)
  {
  }

  /**
   The hover cell with the corrected end rectangle: a row that ends on
   screen ends inside the visible slots.
   */
  function CorrectedHoverCell(currentPos: int, newPos: int, l: ListLayout, v: RowView): (c: HoverCell)
    ensures c.endBounds.left == c.initialBounds.left && c.endBounds.right == c.initialBounds.right
    ensures InWindow(newPos, l) ==>
      c.endBounds.top == (newPos - l.firstVisible) * (v.measuredHeight + l.dividerHeight)
    ensures InWindow(newPos, l) && v.measuredHeight + l.dividerHeight >= 0 ==>
      0 <= c.endBounds.top && c.endBounds.bottom <= l.childCount * (v.measuredHeight + l.dividerHeight)
  {
    var start := StartBounds(currentPos, l, v);
    EndWithinVisibleSlots(start, newPos, l, v);
    HoverCell(start, EndBounds(start, newPos, l, v))
  }

  /** setUpHoverCell, as the source computes it: the start rectangle and the end derived from it. */
  function SetUpHoverCell(currentPos: int, newPos: int, l: ListLayout, v: RowView): (c: HoverCell)
    ensures c.endBounds.left == c.initialBounds.left && c.endBounds.right == c.initialBounds.right
    ensures c.initialBounds.right - c.initialBounds.left == v.measuredWidth
    ensures c.initialBounds.bottom - c.initialBounds.top == v.measuredHeight
    ensures InWindow(newPos, l) ==>
      c.endBounds.top == newPos * (v.measuredHeight + l.dividerHeight)
      && c.endBounds.bottom - c.endBounds.top == v.measuredHeight + l.dividerHeight
  {
    var start := StartBounds(currentPos, l, v);
    EndAsWrittenShape(start, newPos, l, v);
    HoverCell(start, EndBoundsAsWritten(start, newPos, l, v))
  }
}
