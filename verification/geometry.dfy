/** Plane geometry of the drag engine: pointer offsets and measured slot
    rectangles, in pixels. Pixel values are `Float` in the program and
    `real` here, so no rounding is modelled. */
module Geometry {

  /** A point or a displacement, as Compose's `Offset`. */
  datatype Offset = Offset(x: real, y: real)

  /** `Offset.Zero`, the offset of a slot that has not moved. */
  const Zero: Offset := Offset(0.0, 0.0)

  /** `Offset.plus`, component-wise addition. */
  function Plus(a: Offset, b: Offset): Offset
  {
    Offset(a.x + b.x, a.y + b.y)
  }

  /** An axis-aligned rectangle, as Compose's `Rect`. */
  datatype Rect = Rect(left: real, top: real, right: real, bottom: real)

  /** A rectangle with positive width and height. */
  predicate NonEmpty(r: Rect)
  {
    r.left < r.right && r.top < r.bottom
  }

  /** `Rect.center`. */
  function Center(r: Rect): Offset
  {
    Offset((r.left + r.right) / 2.0, (r.top + r.bottom) / 2.0)
  }

  /** `Rect.contains(offset)`: left and top edges inside, right and bottom
      edges outside. */
  predicate Contains(r: Rect, p: Offset)
  {
    r.left <= p.x < r.right && r.top <= p.y < r.bottom
  }

  /** Two rectangles that share no point: one lies wholly to one side of the
      other. */
  predicate Separated(a: Rect, b: Rect)
  {
    a.right <= b.left || b.right <= a.left || a.bottom <= b.top || b.bottom <= a.top
  }

  /** A non-empty rectangle contains its own centre. */
  lemma CenterInside(r: Rect)
    requires NonEmpty(r)
    ensures Contains(r, Center(r))
  {
  }

  /** No point lies in two separated rectangles. */
  lemma SeparatedExclusive(a: Rect, b: Rect, p: Offset)
    requires Separated(a, b)
    ensures !(Contains(a, p) && Contains(b, p))
  {
  }
}
