/** `DragSwapGrid`: slots whose screen rectangles are measured by layout
    callbacks and recorded in a list sized once, when the grid is first
    composed. At the end of a drag the centre of the dragged slot's
    recorded rectangle, moved by the drag offset, is looked up among the
    recorded rectangles; the lowest index containing it is the target. */
module GridSwap {
  import opened Wrappers
  import opened Geometry
  import opened DragSession

  /** `itemRects`: one entry per slot, absent until the slot is measured. */
  type Rects = seq<Option<Rect>>

  /** `MutableList<Rect?>(listSize) { null }`: `n` unmeasured entries, or
      the constructor's exception for a negative size. */
  function NewRects(n: int): (r: Result<Rects>)
    ensures r.Err? <==> n < 0
    ensures r.Err? ==> r.error == NegativeSize(n)
    ensures r.Ok? ==> |r.value| == n && forall i :: 0 <= i < n ==> r.value[i] == None
  {
    if n < 0 then Err(NegativeSize(n)) else Ok(seq(n, _ => None))
  }

  /** The layout callback `itemRects[index] = rect`: overwrites one entry
      and keeps the list's length; an index outside the list raises. */
  function RecordRect(rects: Rects, index: int, rect: Rect): (r: Result<Rects>)
    ensures r.Ok? <==> 0 <= index < |rects|
    ensures r.Err? ==> r.error == IndexOutOfBounds(index, |rects|)
    ensures r.Ok? ==> |r.value| == |rects| && r.value[index] == Some(rect)
    ensures r.Ok? ==> forall j :: 0 <= j < |rects| && j != index ==> r.value[j] == rects[j]
  {
    if 0 <= index < |rects| then Ok(rects[index := Some(rect)])
    else Err(IndexOutOfBounds(index, |rects|))
  }

  /** An entry is measured and its rectangle contains `p`
      (`rect?.contains(center) == true`). */
  predicate Hit(entry: Option<Rect>, p: Offset)
  {
    entry.Some? && Contains(entry.value, p)
  }

  /** `itemRects.getOrNull(draggedIndex)?.center?.plus(dragOffset)`: absent
      when the index is outside the list or its entry is unmeasured. */
  function DraggedCentre(rects: Rects, s: Session): (r: Option<Offset>)
    ensures r.Some? <==> 0 <= s.draggedIndex < |rects| && rects[s.draggedIndex].Some?
    ensures r.Some? ==> r.value == Plus(Center(rects[s.draggedIndex].value), s.offset)
  {
    if 0 <= s.draggedIndex < |rects| then
      match rects[s.draggedIndex]
      case Some(rect) => Some(Plus(Center(rect), s.offset))
      case None => None
    else
      None
  }

  /** `indexOfFirst` over the entries from `from` on: the lowest index whose
      entry contains `p`, or -1. */
  function IndexOfFirstFrom(rects: Rects, p: Offset, from: nat): (r: int)
    ensures r != -1 ==> from <= r < |rects| && Hit(rects[r], p)
    ensures r != -1 ==> forall j :: from <= j < r ==> !Hit(rects[j], p)
    ensures r == -1 ==> forall j :: from <= j < |rects| ==> !Hit(rects[j], p)
    decreases |rects| - from
  {
    if from >= |rects| then -1
    else if Hit(rects[from], p) then from
    else IndexOfFirstFrom(rects, p, from + 1)
  }

  /** `targetIndex`: -1 when the dragged slot has no recorded rectangle,
      otherwise the first index whose rectangle contains the moved centre. */
  function GridTarget(rects: Rects, s: Session): (r: int)
    ensures r == -1 || 0 <= r < |rects|
    ensures r == -1 <==>
      || !(0 <= s.draggedIndex < |rects| && rects[s.draggedIndex].Some?)
      || forall j :: 0 <= j < |rects| ==> !Hit(rects[j], Plus(Center(rects[s.draggedIndex].value), s.offset))
    ensures r != -1 ==>
      && Hit(rects[r], Plus(Center(rects[s.draggedIndex].value), s.offset))
      && forall j :: 0 <= j < r ==> !Hit(rects[j], Plus(Center(rects[s.draggedIndex].value), s.offset))
  {
    match DraggedCentre(rects, s)
    case Some(c) => IndexOfFirstFrom(rects, c, 0)
    case None => -1
  }

  /** The first-match rule pins the grid target down. */
  lemma GridTargetIs(rects: Rects, s: Session, k: int)
    requires 0 <= s.draggedIndex < |rects| && rects[s.draggedIndex].Some?
    requires 0 <= k < |rects|
    requires Hit(rects[k], Plus(Center(rects[s.draggedIndex].value), s.offset))
    requires forall j :: 0 <= j < k ==> !Hit(rects[j], Plus(Center(rects[s.draggedIndex].value), s.offset))
    ensures GridTarget(rects, s) == k
  {
  }

  /** `DragSwapGrid`'s `onDragEnd`: the session is always reset, and a swap
      is requested exactly when the dragged slot has a recorded rectangle,
      some recorded rectangle contains its moved centre, and the lowest
      such index is not the dragged slot. Both indices of a swap are
      indices of the rectangle list. */
  function GridDragEnd(rects: Rects, s: Session): (r: EndResult)
    ensures r.next == Idle
    ensures r.swap.Some? ==>
      && 0 <= s.draggedIndex < |rects| && rects[s.draggedIndex].Some?
      && var c := Plus(Center(rects[s.draggedIndex].value), s.offset);
      && r.swap.value.from == s.draggedIndex
      && 0 <= r.swap.value.to < |rects|
      && r.swap.value.to != s.draggedIndex
      && Hit(rects[r.swap.value.to], c)
      && forall j :: 0 <= j < r.swap.value.to ==> !Hit(rects[j], c)
    ensures r.swap.None? ==>
      || !(0 <= s.draggedIndex < |rects| && rects[s.draggedIndex].Some?)
      || (var c := Plus(Center(rects[s.draggedIndex].value), s.offset);
          || (forall j :: 0 <= j < |rects| ==> !Hit(rects[j], c))
          || (&& Hit(rects[s.draggedIndex], c)
              && forall j :: 0 <= j < s.draggedIndex ==> !Hit(rects[j], c)))
  {
    var t := GridTarget(rects, s);
    EndResult(Idle, Decide(s.draggedIndex, if t == -1 then None else Some(t)))
  }

  /** Every recorded rectangle is non-empty and no two recorded rectangles
      overlap, as for the cells of a laid-out grid. */
  predicate Tiled(rects: Rects)
  {
    && (forall i :: 0 <= i < |rects| && rects[i].Some? ==> NonEmpty(rects[i].value))
    && (forall i, j :: 0 <= i < j < |rects| && rects[i].Some? && rects[j].Some? ==>
          Separated(rects[i].value, rects[j].value))
  }

  /** In a tiled grid a point lies in at most one recorded rectangle, so
      the one that contains it is the target. */
  lemma TiledTarget(rects: Rects, s: Session, k: int)
    requires Tiled(rects)
    requires 0 <= s.draggedIndex < |rects| && rects[s.draggedIndex].Some?
    requires 0 <= k < |rects| && Hit(rects[k], Plus(Center(rects[s.draggedIndex].value), s.offset))
    ensures GridTarget(rects, s) == k
  {
    var c := Plus(Center(rects[s.draggedIndex].value), s.offset);
    forall j | 0 <= j < k
      ensures !Hit(rects[j], c)
    {
      if rects[j].Some? {
        SeparatedExclusive(rects[j].value, rects[k].value, c);
      }
    }
    GridTargetIs(rects, s, k);
  }

  /** Releasing a measured slot of a tiled grid where it started lands on
      the slot itself: no swap. */
  lemma GridZeroOffsetNoSwap(rects: Rects, s: Session)
    requires Tiled(rects)
    requires 0 <= s.draggedIndex < |rects| && rects[s.draggedIndex].Some?
    requires s.offset == Zero
    ensures GridTarget(rects, s) == s.draggedIndex
    ensures GridDragEnd(rects, s).swap == None
  {
    var rect := rects[s.draggedIndex].value;
    CenterInside(rect);
    assert Plus(Center(rect), s.offset) == Center(rect);
    TiledTarget(rects, s, s.draggedIndex);
  }

  /** A dragged slot released with its centre inside another measured cell
      of a tiled grid asks for exactly that swap. */
  lemma GridLandingSwaps(rects: Rects, s: Session, k: int)
    requires Tiled(rects)
    requires 0 <= s.draggedIndex < |rects| && rects[s.draggedIndex].Some?
    requires 0 <= k < |rects| && k != s.draggedIndex
    requires Hit(rects[k], Plus(Center(rects[s.draggedIndex].value), s.offset))
    ensures GridDragEnd(rects, s).swap == Some(SwapRequest(s.draggedIndex, k))
  {
    TiledTarget(rects, s, k);
  }

  /** A dragged slot whose rectangle was never recorded, or whose index is
      outside the list, never asks for a swap. */
  lemma UnmeasuredNoSwap(rects: Rects, s: Session)
    requires !(0 <= s.draggedIndex < |rects| && rects[s.draggedIndex].Some?)
    ensures GridTarget(rects, s) == -1
    ensures GridDragEnd(rects, s).swap == None
  {
  }

  /** After a second layout pass records a new rectangle for slot `k`, the
      hit test uses the new rectangle and not the one it replaced. */
  lemma LatestLayoutUsed(rects: Rects, k: int, old1: Rect, new1: Rect, s: Session)
    requires 0 <= k < |rects|
    requires RecordRect(rects, k, old1).Ok?
    requires var later := RecordRect(RecordRect(rects, k, old1).value, k, new1);
      later.Ok? && Tiled(later.value)
      && 0 <= s.draggedIndex < |rects| && later.value[s.draggedIndex].Some?
      && Contains(new1, Plus(Center(later.value[s.draggedIndex].value), s.offset))
    ensures GridTarget(RecordRect(RecordRect(rects, k, old1).value, k, new1).value, s) == k
  {
    var later := RecordRect(RecordRect(rects, k, old1).value, k, new1).value;
    TiledTarget(later, s, k);
  }

  /** The rectangle a later layout pass replaced is no longer consulted: a
      moved centre that only the replaced rectangle would have contained
      finds no target. */
  lemma ReplacedLayoutIgnored(rects: Rects, k: int, old1: Rect, new1: Rect, s: Session)
    requires 0 <= k < |rects|
    requires RecordRect(rects, k, old1).Ok?
    requires var later := RecordRect(RecordRect(rects, k, old1).value, k, new1);
      && later.Ok?
      && 0 <= s.draggedIndex < |rects| && later.value[s.draggedIndex].Some?
      && var c := Plus(Center(later.value[s.draggedIndex].value), s.offset);
      && Contains(old1, c) && !Contains(new1, c)
      && forall j :: 0 <= j < |rects| && j != k ==> !Hit(later.value[j], c)
    ensures GridTarget(RecordRect(RecordRect(rects, k, old1).value, k, new1).value, s) == -1
  {
    var later := RecordRect(RecordRect(rects, k, old1).value, k, new1).value;
    assert later[k] == Some(new1);
  }

  /** The corrected cancel leaves exactly the session a grid drag end
      leaves. */
  lemma CancelMatchesGridReset(rects: Rects, s: Session)
    ensures OnDragCancel(s) == GridDragEnd(rects, s).next
  {
  }

  /** Cell `k` of a grid with three columns, side 80 and 4 pixels of
      padding around every cell. */
  function DemoCell(k: int): Rect
  {
    var left := 88.0 * ((k % 3) as real) + 4.0;
    var top := 88.0 * ((k / 3) as real) + 4.0;
    Rect(left, top, left + 80.0, top + 80.0)
  }

  /** Nine measured cells in three columns, dragging slot 0 by (170, 10)
      lands in slot 2: `onSwap(0, 2)`. */
  lemma NineCellExample()
    ensures var rects := seq(9, k => Some(DemoCell(k)));
      GridDragEnd(rects, Session(0, Offset(170.0, 10.0))).swap == Some(SwapRequest(0, 2))
  {
    var rects := seq(9, k => Some(DemoCell(k)));
    var s := Session(0, Offset(170.0, 10.0));
    var c := Plus(Center(rects[0].value), s.offset);
    assert c == Offset(214.0, 54.0);
    assert !Hit(rects[0], c) && !Hit(rects[1], c) && Hit(rects[2], c);
    GridTargetIs(rects, s, 2);
  }
}
