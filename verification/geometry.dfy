/** The subset of Go's `image` package (points and rectangles) that the row
    layout relies on, the widget insets, and Go's truncating integer division.
    Coordinates are unbounded integers. */
module Geometry {

  datatype Point = Point(x: int, y: int)

  /** A Go `image.Rectangle`: Min is inclusive, Max exclusive. Nothing forces
      Min <= Max; such a rectangle is simply empty. */
  datatype Rect = Rect(min: Point, max: Point) {

    function Dx(): int { max.x - min.x }

    function Dy(): int { max.y - min.y }

    /** Go's `Rectangle.Empty`. */
    predicate Empty() { min.x >= max.x || min.y >= max.y }

    /** Go's `Rectangle.Add`: translate by `p`. */
    function Add(p: Point): Rect
    {
      Rect(Point(min.x + p.x, min.y + p.y), Point(max.x + p.x, max.y + p.y))
    }
  }

  /** The zero `image.Rectangle{}`. */
  const ZeroRect := Rect(Point(0, 0), Point(0, 0))

  function Min(a: int, b: int): int { if a <= b then a else b }

  function Max(a: int, b: int): int { if a >= b then a else b }

  /** Go's `image.Rect`, which swaps the coordinates so that Min <= Max. */
  function MakeRect(x0: int, y0: int, x1: int, y1: int): Rect
  {
    Rect(Point(Min(x0, x1), Min(y0, y1)), Point(Max(x0, x1), Max(y0, y1)))
  }

  /** Go's `Rectangle.Union`: the smallest rectangle containing both, where an
      empty operand is ignored. */
  function Union(r: Rect, s: Rect): (u: Rect)
    ensures r.Empty() ==> u == s
    ensures !r.Empty() && s.Empty() ==> u == r
    ensures !r.Empty() && !s.Empty() ==>
      && u.min.x <= r.min.x && u.min.x <= s.min.x && (u.min.x == r.min.x || u.min.x == s.min.x)
      && u.min.y <= r.min.y && u.min.y <= s.min.y && (u.min.y == r.min.y || u.min.y == s.min.y)
      && u.max.x >= r.max.x && u.max.x >= s.max.x && (u.max.x == r.max.x || u.max.x == s.max.x)
      && u.max.y >= r.max.y && u.max.y >= s.max.y && (u.max.y == r.max.y || u.max.y == s.max.y)
  {
    if r.Empty() then s
    else if s.Empty() then r
    else Rect(Point(Min(r.min.x, s.min.x), Min(r.min.y, s.min.y)),
              Point(Max(r.max.x, s.max.x), Max(r.max.y, s.max.y)))
  }

  /** A four-sided padding, the widget package's `Insets`. */
  datatype Insets = Insets(top: int, left: int, right: int, bottom: int) {

    function Dx(): int { left + right }

    function Dy(): int { top + bottom }

    /** Shrinks `r` by the insets on every side. */
    function Apply(r: Rect): (a: Rect)
      ensures a.Dx() == r.Dx() - Dx() && a.Dy() == r.Dy() - Dy()
      ensures a.min == Point(r.min.x + left, r.min.y + top)
    {
      Rect(Point(r.min.x + left, r.min.y + top), Point(r.max.x - right, r.max.y - bottom))
    }
  }

  /** Go's integer `/`, which truncates toward zero (Dafny's `/` is Euclidean).
      The remainder `a - b * q` has the sign of the dividend and is smaller than
      the divisor in magnitude, which determines `q` uniquely. */
  function TruncDiv(a: int, b: int): (q: int)
    requires b != 0
    ensures a >= 0 ==> 0 <= a - b * q < (if b > 0 then b else -b)
    ensures a < 0 ==> -(if b > 0 then b else -b) < a - b * q <= 0
  {
    if a >= 0 then a / b
    else -((-a) / b)
  }
}
