/** Screen geometry used by the hide-corner choice.

    The rectangle type and its helpers are not part of this model's sources, so the
    convention is fixed here as an explicit assumption: coordinates are global screen
    coordinates with the origin at the top-left and y growing downward, a rectangle is
    given by its top-left corner and its size, and it contains a point half-open, i.e.
    its left and top edges are inside and its right and bottom edges are outside.
    CGFloat is modelled by `real`, so no rounding happens. */
module Geometry {

  datatype Point = Point(x: real, y: real)

  /** A point moved by an offset. */
  function Shift(p: Point, dx: real, dy: real): Point {
    Point(p.x + dx, p.y + dy)
  }

  datatype Rect = Rect(topLeftX: real, topLeftY: real, width: real, height: real)

  /** Half-open containment: [minX, maxX) x [minY, maxY). */
  predicate Contains(r: Rect, p: Point) {
    && r.topLeftX <= p.x < r.topLeftX + r.width
    && r.topLeftY <= p.y < r.topLeftY + r.height
  }

  function TopLeftPoint(r: Rect): Point {
    Point(r.topLeftX, r.topLeftY)
  }

  function BottomLeftPoint(r: Rect): Point {
    Point(r.topLeftX, r.topLeftY + r.height)
  }

  function BottomRightPoint(r: Rect): Point {
    Point(r.topLeftX + r.width, r.topLeftY + r.height)
  }
}
