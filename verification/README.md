# Drag-to-swap engine of SwapList, in Dafny

SwapList is a small Jetpack Compose library with three components:
`DragSwapRow`, `DragSwapColumn` and `DragSwapGrid`. Each one shows `listSize`
slots and lets the user drag one slot onto another. When the user releases
the slot, the component reports `onSwap(fromIndex, toIndex)`. The demo app
(`MainActivity`) shows nine images in a three-column grid. Its `onSwap`
handler exchanges two entries of the image list.

This project models the part of that code that makes decisions:

- **The drag session** (`DragSession`, `session.dfy`). This is the record of
  `draggedIndex` and `dragOffset`. It has three transitions: `onDragStart`,
  `onDrag`, and the reset that ends every `onDragEnd`. It also holds the
  shared rule that decides whether `onSwap` fires.
- **The row and column hit test** (`LinearSwap`, `linear_swap.dfy`). The
  released centre of the dragged slot is computed from the slot index, the
  box size and the offset. The scan then returns the first slot whose closed
  band along the axis contains the centre, provided the other coordinate is
  in `[0, b]`. The row and the column use the same rule with the axes
  exchanged.
- **The grid hit test** (`GridSwap`, `grid_swap.dfy`). It covers the list of
  recorded rectangles, the layout callback that overwrites one entry, the
  moved centre of the dragged slot's rectangle, and the first-match scan
  that returns -1 when nothing matches.
- **The demo's `onSwap` handler and its wiring** (`Demo`, `demo.dfy`). The
  handler swaps two entries of a sequence. The grid is given
  `listSize = images.size`. A run of callbacks over the whole screen only
  ever permutes the images.

Pixel coordinates and the box size are `real`. `Wrappers` (`wrappers.dfy`)
holds the `Option` and `Result` types. `Geometry` (`geometry.dfy`) holds
`Offset` and `Rect`.

Two behaviours of the code are kept as written:

- `onDragStart` (SwapList.kt line 66) sets `draggedIndex` and leaves
  `dragOffset` alone, so `DragSession.OnDragStart` keeps the offset.
- The grid's rectangle list is sized once, at line 111. If `listSize` later
  outgrows it, `itemRects[index] = rect` (line 129) throws
  `IndexOutOfBoundsException`. `GridSwap.RecordRect` returns that error.

## Model

| member | source | states |
|---|---|---|
| DragSession.OnDragStart | swapList/src/main/java/com/swap/compose/SwapList.kt:65-66 | starting a drag makes the touched slot the dragged slot and leaves the accumulated offset untouched |
| DragSession.OnDrag | swapList/src/main/java/com/swap/compose/SwapList.kt:67-69 | a drag step adds the pointer delta to the offset, component by component, and keeps the dragged slot |
| DragSession.DragAllAccumulates | swapList/src/main/java/com/swap/compose/SwapList.kt:145-148 | after any number of drag steps the dragged slot is unchanged and the offset has grown by exactly the sum of the deltas |
| DragSession.Decide | swapList/src/main/java/com/swap/compose/SwapList.kt:159-165 | a swap is requested if and only if a target exists, a slot is being dragged and the target differs from it; the request is (dragged, target) |
| DragSession.CancelAsWritten | swapList/src/main/java/com/swap/compose/SwapList.kt:141-170 | with no `onDragCancel` handler supplied, a cancelled gesture leaves the dragged slot and the offset as they were |
| DragSession.FreshGestureWithoutNetMovement | swapList/src/main/java/com/swap/compose/SwapList.kt:142-148 | after the corrected cancel, a gesture whose drag steps sum to zero ends on its slot with a zero offset |
| DragSession.OnDragCancel | swapList/src/main/java/com/swap/compose/SwapList.kt:167-168 | corrected cancel: no slot stays selected, and any later drag start behaves exactly as on a fresh swapper |
| LinearSwap.ReleasedCentre | swapList/src/main/java/com/swap/compose/SwapList.kt:71-72 | the released centre is the slot's start plus the offset plus half a box along the axis, and half a box plus the offset across it |
| LinearSwap.FirstSlotFrom | swapList/src/main/java/com/swap/compose/SwapList.kt:74-78 | the scan returns a slot in range that accepts the point, with no lower slot's band containing it, or nothing exactly when no slot in range accepts it |
| LinearSwap.Target | swapList/src/main/java/com/swap/compose/SwapList.kt:74-78 | the row/column `targetIndex`: a slot in range that accepts the released centre with no lower slot accepting it, and none exactly when no slot in range accepts it |
| LinearSwap.TargetIs | swapList/src/main/java/com/swap/compose/SwapList.kt:74-78 | the lowest accepting slot is the target |
| LinearSwap.LinearDragEnd | swapList/src/main/java/com/swap/compose/SwapList.kt:70-86 | the session is always reset; a swap from the dragged slot to the lowest accepting slot is requested exactly when that slot exists and differs from the dragged one; both indices are in range for a valid session |
| LinearSwap.RowDragEnd | swapList/src/main/java/com/swap/compose/SwapList.kt:70-86 | row end: reset to idle; a swap targets the first `i` with `i*b <= finalX <= i*b+b` and needs `0 <= finalY <= b`; both indices lie in `[0, listSize)` |
| LinearSwap.ColumnDragEnd | swapList/src/main/java/com/swap/compose/SwapList.kt:223-239 | column end: the row rule with `finalY` scanned along the slots and `finalX` required in `[0, b]` |
| LinearSwap.CancelMatchesLinearReset | swapList/src/main/java/com/swap/compose/SwapList.kt:84-85 | the corrected cancel leaves the same session as the reset at the end of a row or column drag |
| LinearSwap.SlotsOrdered | swapList/src/main/java/com/swap/compose/SwapList.kt:75-76 | with a positive box size, every slot ends at or before the start of each later slot |
| LinearSwap.InteriorTarget | swapList/src/main/java/com/swap/compose/SwapList.kt:74-78 | a point strictly inside slot k's band, and within the cross band, targets slot k |
| LinearSwap.SharedEdgeLowerWins | swapList/src/main/java/com/swap/compose/SwapList.kt:74-78 | a point on the edge shared by slots k-1 and k targets k-1 |
| LinearSwap.OutsideNoTarget | swapList/src/main/java/com/swap/compose/SwapList.kt:74-78 | a point before the first slot, past the last slot or outside `[0, b]` across the axis has no target |
| LinearSwap.AcrossIrrelevant | swapList/src/main/java/com/swap/compose/SwapList.kt:77 | moving across the axis while staying within `[0, b]` does not change the target |
| LinearSwap.ZeroOffsetNoSwap | swapList/src/main/java/com/swap/compose/SwapList.kt:71-82 | releasing a slot with zero offset targets the slot itself, so no swap is requested |
| LinearSwap.LandingSwaps | swapList/src/main/java/com/swap/compose/SwapList.kt:65-82 | a gesture that starts on slot i and moves its centre strictly inside another slot k requests exactly the swap (i, k) |
| LinearSwap.GestureKeepsValid | swapList/src/main/java/com/swap/compose/SwapList.kt:65-69 | a gesture started on a slot in range keeps the session valid through all its drag steps |
| LinearSwap.LeakedOffsetSwaps | swapList/src/main/java/com/swap/compose/SwapList.kt:65-88 | as written: after a cancelled 200-pixel drag of slot 0, a new gesture on slot 0 with no net movement (8 right, 8 back) still carries the leaked offset and requests the swap (0, 2) |
| LinearSwap.CancelThenStillRelease | swapList/src/main/java/com/swap/compose/SwapList.kt:70-86 | with the corrected cancel, a gesture whose drag steps sum to zero never swaps, whatever the cancelled gesture left behind |
| Geometry.CenterInside | swapList/src/main/java/com/swap/compose/SwapList.kt:151 | a non-empty rectangle contains its own centre |
| GridSwap.NewRects | swapList/src/main/java/com/swap/compose/SwapList.kt:111 | the rectangle list starts with `listSize` empty entries; a negative size is an error |
| GridSwap.RecordRect | swapList/src/main/java/com/swap/compose/SwapList.kt:127-130 | layout overwrites only entry `index` and keeps the list's length; an index outside the list raises IndexOutOfBounds |
| GridSwap.DraggedCentre | swapList/src/main/java/com/swap/compose/SwapList.kt:150-151 | the moved centre exists exactly when the dragged index is in the list and its entry is measured; it is that rectangle's centre plus the offset |
| GridSwap.IndexOfFirstFrom | swapList/src/main/java/com/swap/compose/SwapList.kt:153-157 | the scan returns the lowest index whose measured rectangle contains the point, or -1 exactly when none does |
| GridSwap.GridTarget | swapList/src/main/java/com/swap/compose/SwapList.kt:150-157 | the grid `targetIndex` is -1 or an index of the list; it is -1 exactly when the dragged slot is unmeasured or out of range or no rectangle contains the moved centre; otherwise it is the lowest index whose rectangle contains it |
| GridSwap.GridTargetIs | swapList/src/main/java/com/swap/compose/SwapList.kt:150-157 | the lowest index whose rectangle contains the moved centre is the grid target |
| GridSwap.GridDragEnd | swapList/src/main/java/com/swap/compose/SwapList.kt:149-169 | the session is always reset; a swap is requested exactly when the dragged slot is measured, some rectangle contains its moved centre and the first such index is another slot; both indices are in range of the list |
| GridSwap.TiledTarget | swapList/src/main/java/com/swap/compose/SwapList.kt:153-157 | in a grid of non-overlapping cells, the cell containing the moved centre is the target |
| GridSwap.GridZeroOffsetNoSwap | swapList/src/main/java/com/swap/compose/SwapList.kt:150-165 | releasing a measured cell of a tiled grid where it started targets the cell itself, and no swap is requested |
| GridSwap.GridLandingSwaps | swapList/src/main/java/com/swap/compose/SwapList.kt:150-165 | releasing with the moved centre inside another cell k of a tiled grid requests exactly (dragged, k) |
| GridSwap.UnmeasuredNoSwap | swapList/src/main/java/com/swap/compose/SwapList.kt:150-157 | an unmeasured or out-of-range dragged slot yields target -1 and no swap |
| GridSwap.LatestLayoutUsed | swapList/src/main/java/com/swap/compose/SwapList.kt:127-130 | after two layout passes record different rectangles for a slot, the hit test uses the second |
| GridSwap.ReplacedLayoutIgnored | swapList/src/main/java/com/swap/compose/SwapList.kt:127-130 | a moved centre that only the rectangle replaced by a later layout pass would contain finds no target |
| GridSwap.CancelMatchesGridReset | swapList/src/main/java/com/swap/compose/SwapList.kt:167-168 | the corrected cancel leaves the same session as the reset at the end of a grid drag |
| GridSwap.NineCellExample | swapList/src/main/java/com/swap/compose/SwapList.kt:123-165 | nine cells of side 80 in three columns with 4 pixels of padding: dragging slot 0 by (170, 10) requests the swap (0, 2) |
| Demo.SwapEntries | app/src/main/java/com/genetum/swaplist/MainActivity.kt:75-80 | the two entries are exchanged, every other entry and the length are unchanged, and the result is a permutation of the input |
| Demo.SwapTwiceRestores | app/src/main/java/com/genetum/swaplist/MainActivity.kt:76-80 | the same swap applied twice restores the list |
| Demo.SwapSymmetric | app/src/main/java/com/genetum/swaplist/MainActivity.kt:76-80 | swapping (from, to) and swapping (to, from) give the same list |
| Demo.Initial | app/src/main/java/com/genetum/swaplist/MainActivity.kt:71-72 | the grid starts idle with one unmeasured rectangle per image |
| Demo.DemoDragEnd | app/src/main/java/com/genetum/swaplist/MainActivity.kt:71-81 | because the grid is given `images.size`, a requested swap has two distinct indices valid for the images, and carrying it out permutes them; with no request the images are untouched |
| Demo.Step | swapList/src/main/java/com/swap/compose/SwapList.kt:127-170 | every callback keeps the screen consistent and only permutes the images; an end leaves the session idle, and a cancel, which has no handler, leaves it unchanged |
| Demo.Run | app/src/main/java/com/genetum/swaplist/MainActivity.kt:71-81 | any run of callbacks on the demo screen only permutes the images, keeps their count and keeps the screen consistent; a run ending in a drag end leaves no drag behind |

## Left out

- Compose rendering is not modelled: layout, padding, scale, translation and z-order have no effect on hit testing.
- Gesture delivery is not modelled. `pointerInput` and `detectDragGestures` become explicit calls to the transitions, and `change.consume()` is dropped.
- Density conversion is not modelled. Pixels are `real`, and `Float` rounding is ignored.
- Rectangles are inputs to the layout callback. `onGloballyPositioned` and `boundsInWindow` are not modelled.
- `Rect.contains` comes from a library that is not part of this model. It is taken to be half-open: left and top edges inside, right and bottom edges outside.
- The row and column compute slot positions as `index * boxSizePx`. This ignores the 2 dp padding around each box and the centred arrangement. The model follows that arithmetic and does not compare it with the drawn layout.
- A `listSize` that changes while a swapper is on screen is not modelled beyond `GridSwap.RecordRect`'s error case. The demo never changes the number of images.
- The UI parts of `MainActivity.kt` are not modelled (theme, images, text, activity lifecycle). Neither is `swapList/build.gradle.kts`, which is build configuration.
- Demo.SwapEntries: requires both indices in range, where the Kotlin list would throw. `Demo.DemoDragEnd` proves that the grid only emits such indices.
- LinearSwap.RowDragEnd: states only the swap direction. `LinearSwap.LinearDragEnd`, which it calls, states when no swap is requested.
- LinearSwap.ColumnDragEnd: states only the swap direction. `LinearSwap.LinearDragEnd`, which it calls, states when no swap is requested.

## Findings

| source | as written | input that shows it | evidently intended | confidence | as-written member | corrected member |
|---|---|---|---|---|---|---|
| swapList/src/main/java/com/swap/compose/SwapList.kt:65-88 | No `onDragCancel` is supplied, and `onDragStart` does not clear `dragOffset`. A cancelled gesture keeps its offset and its dragged slot. | Row of four slots, box size 80. Drag slot 0 by (200, 0), then the gesture is cancelled. Slot 0 stays selected, so it stays drawn scaled, above its neighbours and 200 pixels to the right, over the edge between slots 2 and 3. Pick it up there, drag it 8 right and 8 back, and release it with no net movement. Result: `onSwap(0, 2)`. | A cancelled gesture resets the session the way a drag end does: no slot stays selected or displaced, and the next gesture starts from a zero offset. | medium, not executed | LinearSwap.LeakedOffsetSwaps | DragSession.OnDragCancel |
