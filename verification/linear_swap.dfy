/** `DragSwapRow` and `DragSwapColumn`: `n` slots of side `b` laid out along
    one axis. At the end of a drag the released centre of the dragged slot
    is compared against each slot's closed band along the axis and the
    closed band `[0, b]` across it; the lowest matching slot is the target. */
module LinearSwap {
  import opened Wrappers
  import opened Geometry
  import opened DragSession

  /** Horizontal for the row, vertical for the column. */
  datatype Axis = Horizontal | Vertical

  /** The coordinate along which the slots are laid out. */
  function Along(axis: Axis, p: Offset): real
  {
    match axis
    case Horizontal => p.x
    case Vertical => p.y
  }

  /** The coordinate across the arrangement. */
  function Across(axis: Axis, p: Offset): real
  {
    match axis
    case Horizontal => p.y
    case Vertical => p.x
  }

  /** Where slot `i` starts along the axis: `i * boxSizePx`. */
  function SlotStart(i: int, b: real): real
  {
    (i as real) * b
  }

  /** The centre of slot `index` after it has been moved by `offset`
      (`finalX`, `finalY` in the program). */
  function ReleasedCentre(axis: Axis, index: int, b: real, offset: Offset): (c: Offset)
    ensures Along(axis, c) == SlotStart(index, b) + Along(axis, offset) + b / 2.0
    ensures Across(axis, c) == b / 2.0 + Across(axis, offset)
  {
    match axis
    case Horizontal => Offset(SlotStart(index, b) + offset.x + b / 2.0, b / 2.0 + offset.y)
    case Vertical => Offset(b / 2.0 + offset.x, SlotStart(index, b) + offset.y + b / 2.0)
  }

  /** Coordinate `v` lies in slot `i`'s band along the axis, both ends
      included. */
  predicate InBand(i: int, b: real, v: real)
  {
    SlotStart(i, b) <= v <= SlotStart(i, b) + b
  }

  /** Slot `i` accepts point `p`: in its band along the axis and in the
      band `[0, b]` across it, both closed at both ends. */
  predicate InSlot(axis: Axis, i: int, b: real, p: Offset)
  {
    InBand(i, b, Along(axis, p)) && 0.0 <= Across(axis, p) <= b
  }

  /** `(from until n).firstOrNull { InSlot }`. */
  function FirstSlotFrom(axis: Axis, n: int, b: real, p: Offset, from: int): (r: Option<int>)
    ensures r.Some? ==> from <= r.value < n && InSlot(axis, r.value, b, p)
    ensures r.Some? ==> forall j :: from <= j < r.value ==> !InBand(j, b, Along(axis, p))
    ensures r.None? ==> forall j :: from <= j < n ==> !InSlot(axis, j, b, p)
    decreases n - from
  {
    if from >= n then None
    else if InSlot(axis, from, b, p) then Some(from)
    else FirstSlotFrom(axis, n, b, p, from + 1)
  }

  /** The target of a release at `p` among slots `0 until n`. */
  function Target(axis: Axis, n: int, b: real, p: Offset): (r: Option<int>)
    ensures r.Some? ==> 0 <= r.value < n && InSlot(axis, r.value, b, p)
    ensures r.Some? ==> forall j :: 0 <= j < r.value ==> !InSlot(axis, j, b, p)
    ensures r.None? <==> forall j :: 0 <= j < n ==> !InSlot(axis, j, b, p)
  {
    FirstSlotFrom(axis, n, b, p, 0)
  }

  /** The first-match rule pins the target down: the lowest slot that
      accepts the point, or none when no slot does. */
  lemma TargetIs(axis: Axis, n: int, b: real, p: Offset, k: int)
    requires 0 <= k < n && InSlot(axis, k, b, p)
    requires forall j :: 0 <= j < k ==> !InSlot(axis, j, b, p)
    ensures Target(axis, n, b, p) == Some(k)
  {
  }

  /** `onDragEnd` of either swapper, for the gesture received by slot
      `index` with session `s`: the session is always reset, and a swap is
      requested exactly when the lowest slot accepting the released centre
      exists and is not the dragged slot. */
  function LinearDragEnd(axis: Axis, s: Session, index: int, n: int, b: real): (r: EndResult)
    ensures r.next == Idle
    ensures var c := ReleasedCentre(axis, index, b, s.offset);
      r.swap.Some? ==>
        && s.draggedIndex != -1
        && r.swap.value.from == s.draggedIndex
        && 0 <= r.swap.value.to < n
        && r.swap.value.to != s.draggedIndex
        && InSlot(axis, r.swap.value.to, b, c)
        && forall j :: 0 <= j < r.swap.value.to ==> !InBand(j, b, Along(axis, c))
    ensures var c := ReleasedCentre(axis, index, b, s.offset);
      r.swap.None? ==>
        || s.draggedIndex == -1
        || (forall j :: 0 <= j < n ==> !InSlot(axis, j, b, c))
        || (&& 0 <= s.draggedIndex < n
            && InSlot(axis, s.draggedIndex, b, c)
            && forall j :: 0 <= j < s.draggedIndex ==> !InSlot(axis, j, b, c))
    ensures ValidSession(s, n) && r.swap.Some? ==> 0 <= r.swap.value.from < n
  {
    var c := ReleasedCentre(axis, index, b, s.offset);
    EndResult(Idle, Decide(s.draggedIndex, Target(axis, n, b, c)))
  }

  /** `DragSwapRow`'s `onDragEnd`. */
  function RowDragEnd(s: Session, index: int, n: int, b: real): (r: EndResult)
    ensures r.next == Idle
    ensures var x := SlotStart(index, b) + s.offset.x + b / 2.0;
            var y := b / 2.0 + s.offset.y;
      r.swap.Some? ==>
        && s.draggedIndex != -1
        && r.swap.value.from == s.draggedIndex
        && 0 <= r.swap.value.to < n
        && r.swap.value.to != s.draggedIndex
        && InBand(r.swap.value.to, b, x)
        && 0.0 <= y <= b
        && forall j :: 0 <= j < r.swap.value.to ==> !InBand(j, b, x)
    ensures ValidSession(s, n) && r.swap.Some? ==> 0 <= r.swap.value.from < n
  {
    LinearDragEnd(Horizontal, s, index, n, b)
  }

  /** `DragSwapColumn`'s `onDragEnd`: the row rule with the axes exchanged. */
  function ColumnDragEnd(s: Session, index: int, n: int, b: real): (r: EndResult)
    ensures r.next == Idle
    ensures var y := SlotStart(index, b) + s.offset.y + b / 2.0;
            var x := b / 2.0 + s.offset.x;
      r.swap.Some? ==>
        && s.draggedIndex != -1
        && r.swap.value.from == s.draggedIndex
        && 0 <= r.swap.value.to < n
        && r.swap.value.to != s.draggedIndex
        && InBand(r.swap.value.to, b, y)
        && 0.0 <= x <= b
        && forall j :: 0 <= j < r.swap.value.to ==> !InBand(j, b, y)
    ensures ValidSession(s, n) && r.swap.Some? ==> 0 <= r.swap.value.from < n
  {
    LinearDragEnd(Vertical, s, index, n, b)
  }

  /** With a positive box size, a slot ends where every later slot starts
      or earlier. */
  lemma SlotsOrdered(j: int, k: int, b: real)
    requires b > 0.0 && j < k
    ensures SlotStart(j, b) + b <= SlotStart(k, b)
  {
    var d := (k - j - 1) as real;
    assert d >= 0.0;
    assert d * b >= 0.0;
    assert SlotStart(k, b) - SlotStart(j, b) - b == d * b;
  }

  /** A point strictly inside slot `k`'s band along the axis, and inside
      the band across it, is released onto slot `k`. */
  lemma InteriorTarget(axis: Axis, n: int, b: real, p: Offset, k: int)
    requires b > 0.0 && 0 <= k < n
    requires SlotStart(k, b) < Along(axis, p) < SlotStart(k, b) + b
    requires 0.0 <= Across(axis, p) <= b
    ensures Target(axis, n, b, p) == Some(k)
  {
    forall j | 0 <= j < k
      ensures !InSlot(axis, j, b, p)
    {
      SlotsOrdered(j, k, b);
    }
    TargetIs(axis, n, b, p, k);
  }

  /** On the edge shared by slots `k - 1` and `k` the lower slot wins. */
  lemma SharedEdgeLowerWins(axis: Axis, n: int, b: real, p: Offset, k: int)
    requires b > 0.0 && 0 < k < n
    requires Along(axis, p) == SlotStart(k, b)
    requires 0.0 <= Across(axis, p) <= b
    ensures Target(axis, n, b, p) == Some(k - 1)
  {
    assert SlotStart(k - 1, b) + b == SlotStart(k, b);
    forall j | 0 <= j < k - 1
      ensures !InSlot(axis, j, b, p)
    {
      SlotsOrdered(j, k - 1, b);
    }
    TargetIs(axis, n, b, p, k - 1);
  }

  /** A release outside the arrangement's bands finds no target. */
  lemma OutsideNoTarget(axis: Axis, n: int, b: real, p: Offset)
    requires b > 0.0
    requires Along(axis, p) < 0.0 || Along(axis, p) > SlotStart(n, b)
             || Across(axis, p) < 0.0 || Across(axis, p) > b
    ensures Target(axis, n, b, p) == None
  {
    var r := Target(axis, n, b, p);
    if r.Some? {
      var k := r.value;
      assert InSlot(axis, k, b, p);
      assert SlotStart(k, b) >= 0.0 by {
        assert (k as real) >= 0.0;
      }
      SlotsOrdered(k, n, b);
    }
  }

  /** Movement across the arrangement does not change the target while the
      released centre stays within `[0, b]` across it: only the coordinate
      along the axis selects the slot. */
  lemma {:induction false} AcrossIrrelevant(axis: Axis, n: int, b: real, p: Offset, q: Offset, from: int)
    requires Along(axis, p) == Along(axis, q)
    requires 0.0 <= Across(axis, p) <= b && 0.0 <= Across(axis, q) <= b
    ensures FirstSlotFrom(axis, n, b, p, from) == FirstSlotFrom(axis, n, b, q, from)
    decreases n - from
  {
    if from < n {
      AcrossIrrelevant(axis, n, b, p, q, from + 1);
    }
  }

  /** Releasing a slot where it started (zero offset) lands on the slot
      itself, so no swap is requested. */
  lemma ZeroOffsetNoSwap(axis: Axis, s: Session, n: int, b: real)
    requires b > 0.0 && 0 <= s.draggedIndex < n
    requires s.offset == Zero
    ensures Target(axis, n, b, ReleasedCentre(axis, s.draggedIndex, b, s.offset)) == Some(s.draggedIndex)
    ensures LinearDragEnd(axis, s, s.draggedIndex, n, b).swap == None
  {
    InteriorTarget(axis, n, b, ReleasedCentre(axis, s.draggedIndex, b, s.offset), s.draggedIndex);
  }

  /** A gesture that starts on slot `i` and moves it so that its centre
      lands strictly inside another slot `k` asks for exactly the swap
      `(i, k)`. */
  lemma LandingSwaps(axis: Axis, start: Session, i: int, deltas: seq<Offset>, n: int, b: real, k: int)
    requires b > 0.0 && 0 <= i < n && 0 <= k < n && i != k
    requires var c := ReleasedCentre(axis, i, b, DragAll(OnDragStart(start, i), deltas).offset);
      SlotStart(k, b) < Along(axis, c) < SlotStart(k, b) + b && 0.0 <= Across(axis, c) <= b
    ensures LinearDragEnd(axis, DragAll(OnDragStart(start, i), deltas), i, n, b).swap
            == Some(SwapRequest(i, k))
  {
    var s := DragAll(OnDragStart(start, i), deltas);
    DragAllAccumulates(OnDragStart(start, i), deltas);
    InteriorTarget(axis, n, b, ReleasedCentre(axis, i, b, s.offset), k);
  }

  /** Starting on slot `index` from a valid session keeps the session valid
      for `n` slots, and drag steps keep it so. */
  lemma {:induction false} GestureKeepsValid(s: Session, index: int, deltas: seq<Offset>, n: int)
    requires 0 <= index < n
    ensures ValidSession(DragAll(OnDragStart(s, index), deltas), n)
  {
    DragAllAccumulates(OnDragStart(s, index), deltas);
  }

  /** A cancelled gesture keeps its offset, and `onDragStart` does not
      clear it, so the next gesture inherits the movement. Four slots of
      side 80: slot 0 is dragged 200 to the right and the gesture is
      cancelled, which leaves it selected and drawn 200 to the right; it is
      picked up there and dragged 8 to the right and 8 back, a gesture with
      no net movement. It still carries the leaked offset, its
      centre is released on the edge between slots 2 and 3, and it asks for
      `onSwap(0, 2)`. */
  lemma LeakedOffsetSwaps()
    ensures var leaked := CancelAsWritten(OnDrag(OnDragStart(Idle, 0), Offset(200.0, 0.0)));
      DragAll(OnDragStart(leaked, 0), [Offset(8.0, 0.0), Offset(-8.0, 0.0)])
        == Session(0, Offset(200.0, 0.0))
    ensures RowDragEnd(Session(0, Offset(200.0, 0.0)), 0, 4, 80.0).swap == Some(SwapRequest(0, 2))
  {
  }

  /** With a cancel handler that resets the session, a gesture with no net
      movement never swaps, whatever the cancelled gesture left behind. */
  lemma CancelThenStillRelease(axis: Axis, s: Session, i: int, deltas: seq<Offset>, n: int, b: real)
    requires b > 0.0 && 0 <= i < n
    requires Total(deltas) == Zero
    ensures LinearDragEnd(axis, DragAll(OnDragStart(OnDragCancel(s), i), deltas), i, n, b).swap == None
  {
    FreshGestureWithoutNetMovement(s, i, deltas);
    ZeroOffsetNoSwap(axis, Session(i, Zero), n, b);
  }

  /** The corrected cancel leaves exactly the session a row or column drag
      end leaves. */
  lemma CancelMatchesLinearReset(axis: Axis, s: Session, index: int, n: int, b: real)
    ensures OnDragCancel(s) == LinearDragEnd(axis, s, index, n, b).next
  {
  }
}
