/** The drag session every swapper keeps: which slot is being dragged
    (-1 when idle) and how far the pointer has moved it. Row, column and
    grid share this record and its transitions; they differ only in how
    the end of a drag picks its target. */
module DragSession {
  import opened Wrappers
  import opened Geometry

  /** `draggedIndex` and `dragOffset` of one swapper instance. */
  datatype Session = Session(draggedIndex: int, offset: Offset)

  /** The state of a fresh swapper and after every drag end. */
  const Idle: Session := Session(-1, Zero)

  /** The session names no slot, or a slot of a list of `n` slots. */
  predicate ValidSession(s: Session, n: int)
  {
    s.draggedIndex == -1 || 0 <= s.draggedIndex < n
  }

  /** `onSwap(fromIndex, toIndex)` as a value. */
  datatype SwapRequest = SwapRequest(from: int, to: int)

  /** What a drag end leaves behind: the next session and the swap it
      asked for, if any. A single optional request means `onSwap` runs at
      most once per drag end. */
  datatype EndResult = EndResult(next: Session, swap: Option<SwapRequest>)

  /** `onDragStart`: the touched slot becomes the dragged slot; the offset
      is left as it is. */
  function OnDragStart(s: Session, index: int): (r: Session)
    ensures r.draggedIndex == index
    ensures r.offset == s.offset
  {
    s.(draggedIndex := index)
  }

  /** `onDrag`: the pointer's movement is added to the offset. */
  function OnDrag(s: Session, delta: Offset): (r: Session)
    ensures r.draggedIndex == s.draggedIndex
    ensures r.offset.x == s.offset.x + delta.x && r.offset.y == s.offset.y + delta.y
  {
    s.(offset := Plus(s.offset, delta))
  }

  /** A run of `onDrag` calls, in delivery order. */
  function DragAll(s: Session, deltas: seq<Offset>): Session
    decreases |deltas|
  {
    if |deltas| == 0 then s else DragAll(OnDrag(s, deltas[0]), deltas[1..])
  }

  /** The total movement of a run of drag deltas. */
  function Total(deltas: seq<Offset>): Offset
    decreases |deltas|
  {
    if |deltas| == 0 then Zero else Plus(deltas[0], Total(deltas[1..]))
  }

  /** However many drag steps arrive, the dragged slot stays the same and
      the offset grows by exactly their sum. */
  lemma {:induction false} DragAllAccumulates(s: Session, deltas: seq<Offset>)
    ensures DragAll(s, deltas).draggedIndex == s.draggedIndex
    ensures DragAll(s, deltas).offset == Plus(s.offset, Total(deltas))
    decreases |deltas|
  {
    if |deltas| > 0 {
      DragAllAccumulates(OnDrag(s, deltas[0]), deltas[1..]);
    }
  }

  /** The decision shared by all three swappers: `onSwap` fires only for a
      found target, a recorded dragged slot and a target other than it. */
  function Decide(dragged: int, target: Option<int>): (r: Option<SwapRequest>)
    ensures r.Some? <==> target.Some? && dragged != -1 && target.value != dragged
    ensures r.Some? ==> r.value.from == dragged && r.value.to == target.value
  {
    if target.Some? && dragged != -1 && target.value != dragged then
      Some(SwapRequest(dragged, target.value))
    else
      None
  }

  /** A cancelled gesture as the swappers handle it: no `onDragCancel`
      handler is supplied, so the session is kept as the last drag step
      left it. */
  function CancelAsWritten(s: Session): (r: Session)
    ensures r.draggedIndex == s.draggedIndex && r.offset == s.offset
  {
    s
  }

  /** A cancelled gesture with a reset handler, as a drag end without a
      swap: no slot stays selected, and whatever the session held, a later
      `onDragStart` starts from a zero offset, as on a fresh swapper. */
  function OnDragCancel(s: Session): (r: Session)
    ensures r.draggedIndex == -1
    ensures forall i :: OnDragStart(r, i) == OnDragStart(Idle, i)
  {
    Idle
  }

  /** After a reset cancel, a gesture on slot `i` whose drag steps sum to
      zero ends exactly where a fresh gesture on `i` begins. */
  lemma FreshGestureWithoutNetMovement(s: Session, i: int, deltas: seq<Offset>)
    requires Total(deltas) == Zero
    ensures DragAll(OnDragStart(OnDragCancel(s), i), deltas) == Session(i, Zero)
  {
    var start := OnDragStart(OnDragCancel(s), i);
    assert start == Session(i, Zero);
    DragAllAccumulates(start, deltas);
  }
}
