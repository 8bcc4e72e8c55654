/** The demo screen: a list of images shown in a `DragSwapGrid` with
    `listSize = images.size`, whose `onSwap` handler exchanges two entries
    of the list. Composed with the grid engine, every completed drag
    permutes the images. */
module Demo {
  import opened Wrappers
  import opened Geometry
  import opened DragSession
  import opened GridSwap

  /** The `onSwap` handler: `temp = list[from]; list[from] = list[to];
      list[to] = temp`. */
  function SwapEntries<T>(images: seq<T>, from: int, to: int): (r: seq<T>)
    requires 0 <= from < |images| && 0 <= to < |images|
    ensures |r| == |images|
    ensures r[from] == images[to] && r[to] == images[from]
    ensures forall k :: 0 <= k < |images| && k != from && k != to ==> r[k] == images[k]
    ensures multiset(r) == multiset(images)
  {
    var temp := images[from];
    var moved := images[from := images[to]];
    moved[to := temp]
  }

  /** Applying the same swap twice restores the list. */
  lemma SwapTwiceRestores<T>(images: seq<T>, from: int, to: int)
    requires 0 <= from < |images| && 0 <= to < |images|
    ensures SwapEntries(SwapEntries(images, from, to), from, to) == images
  {
    var twice := SwapEntries(SwapEntries(images, from, to), from, to);
    assert forall k :: 0 <= k < |images| ==> twice[k] == images[k];
  }

  /** The order of the two indices does not matter. */
  lemma SwapSymmetric<T>(images: seq<T>, from: int, to: int)
    requires 0 <= from < |images| && 0 <= to < |images|
    ensures SwapEntries(images, from, to) == SwapEntries(images, to, from)
  {
    var a := SwapEntries(images, from, to);
    var b := SwapEntries(images, to, from);
    assert forall k :: 0 <= k < |images| ==> a[k] == b[k];
  }

  /** The images, the grid's drag session and its recorded rectangles. */
  datatype Screen<T> = Screen(images: seq<T>, session: Session, rects: Rects)

  /** The rectangle list was created with `listSize = images.size` (and
      swaps never change that size); the session names no slot or one of
      the grid's slots. */
  predicate Consistent<T>(st: Screen<T>)
  {
    |st.rects| == |st.images| && ValidSession(st.session, |st.images|)
  }

  /** The first composition: no drag, no rectangle measured yet. */
  function Initial<T>(images: seq<T>): (r: Screen<T>)
    ensures Consistent(r) && r.images == images && r.session == Idle
    ensures forall i :: 0 <= i < |r.rects| ==> r.rects[i] == None
  {
    Screen(images, Idle, NewRects(|images|).value)
  }

  /** A drag end of the demo grid: the engine's request, if any, carried
      out by the `onSwap` handler. The emitted indices are valid for the
      images because the grid was given their count. */
  function DemoDragEnd<T>(st: Screen<T>): (r: Screen<T>)
    requires |st.rects| == |st.images|
    ensures r.session == Idle && r.rects == st.rects
    ensures |r.images| == |st.images|
    ensures multiset(r.images) == multiset(st.images)
    ensures var e := GridDragEnd(st.rects, st.session);
      && (e.swap.None? ==> r.images == st.images)
      && (e.swap.Some? ==>
            && 0 <= e.swap.value.from < |st.images| && 0 <= e.swap.value.to < |st.images|
            && e.swap.value.from != e.swap.value.to
            && r.images[e.swap.value.from] == st.images[e.swap.value.to]
            && r.images[e.swap.value.to] == st.images[e.swap.value.from]
            && forall k :: 0 <= k < |st.images| && k != e.swap.value.from && k != e.swap.value.to
                 ==> r.images[k] == st.images[k])
  {
    var e := GridDragEnd(st.rects, st.session);
    match e.swap
    case None => Screen(st.images, e.next, st.rects)
    case Some(req) => Screen(SwapEntries(st.images, req.from, req.to), e.next, st.rects)
  }

  /** The callbacks the grid receives, in delivery order. */
  datatype Event =
    | Start(index: int)              // onDragStart on slot `index`
    | Drag(delta: Offset)            // onDrag
    | End                            // onDragEnd
    | Cancel                         // a cancelled gesture
    | Layout(index: int, rect: Rect) // onGloballyPositioned of slot `index`

  /** Pointer and layout callbacks only come from rendered slots. */
  predicate ValidEvent(ev: Event, n: int)
  {
    match ev
    case Start(i) => 0 <= i < n
    case Layout(i, _) => 0 <= i < n
    case _ => true
  }

  /** One callback applied to the screen. The grid supplies no cancel
      handler, so a cancelled gesture leaves the session as it was. */
  function Step<T>(st: Screen<T>, ev: Event): (r: Screen<T>)
    requires Consistent(st) && ValidEvent(ev, |st.images|)
    ensures Consistent(r)
    ensures |r.images| == |st.images| && multiset(r.images) == multiset(st.images)
    ensures ev.End? ==> r.session == Idle
    ensures ev.Cancel? ==> r.session == st.session
  {
    match ev
    case Start(i) => st.(session := OnDragStart(st.session, i))
    case Drag(d) => st.(session := OnDrag(st.session, d))
    case End => DemoDragEnd(st)
    case Cancel => st.(session := CancelAsWritten(st.session))
    case Layout(i, rect) => st.(rects := RecordRect(st.rects, i, rect).value)
  }

  /** A whole run of callbacks. Whatever the user does, the images are
      only ever permuted, the screen stays consistent, and a run that ends
      with a drag end leaves no drag behind. */
  function Run<T>(st: Screen<T>, evs: seq<Event>): (r: Screen<T>)
    requires Consistent(st)
    requires forall k :: 0 <= k < |evs| ==> ValidEvent(evs[k], |st.images|)
    ensures Consistent(r)
    ensures |r.images| == |st.images| && multiset(r.images) == multiset(st.images)
    ensures |evs| > 0 && evs[|evs| - 1].End? ==> r.session == Idle
    decreases |evs|
  {
    if |evs| == 0 then st
    else Run(Step(st, evs[0]), evs[1..])
  }
}
