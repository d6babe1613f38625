/** Axis-aligned rectangles stored as an origin and a size, over exact reals. */
module Geometry {
  datatype Point = Point(x: real, y: real) {
    function Min(other: Point): Point {
      Point(if other.x < x then other.x else x, if other.y < y then other.y else y)
    }

    function Max(other: Point): Point {
      Point(if other.x > x then other.x else x, if other.y > y then other.y else y)
    }
  }

  datatype Size = Size(width: real, height: real)

  datatype Bounds = Bounds(origin: Point, size: Size) {
    function BottomRight(): Point {
      Point(origin.x + size.width, origin.y + size.height)
    }

    static function FromCorners(topLeft: Point, bottomRight: Point): Bounds {
      Bounds(topLeft, Size(bottomRight.x - topLeft.x, bottomRight.y - topLeft.y))
    }

    predicate Intersects(other: Bounds) {
      && origin.x < other.BottomRight().x
      && BottomRight().x > other.origin.x
      && origin.y < other.BottomRight().y
      && BottomRight().y > other.origin.y
    }

    function Union(other: Bounds): (u: Bounds)
      ensures u.Contains(this) && u.Contains(other)
    {
      FromCorners(origin.Min(other.origin), BottomRight().Max(other.BottomRight()))
    }

    function HalfPerimeter(): real {
      size.width + size.height
    }

    /** A point strictly between the corners. */
    ghost predicate Inside(p: Point) {
      origin.x < p.x < BottomRight().x && origin.y < p.y < BottomRight().y
    }

    predicate HasArea() {
      size.width > 0.0 && size.height > 0.0
    }

    /** Corner-wise containment; it makes sense for degenerate rectangles too. */
    ghost predicate Contains(other: Bounds) {
      && origin.x <= other.origin.x
      && origin.y <= other.origin.y
      && other.BottomRight().x <= BottomRight().x
      && other.BottomRight().y <= BottomRight().y
    }
  }

  /** Some point lies strictly inside both: rectangles that only touch share none. */
  ghost predicate ShareInterior(a: Bounds, b: Bounds) {
    exists p: Point :: a.Inside(p) && b.Inside(p)
  }

  lemma {:induction false} IntersectsIff(a: Bounds, b: Bounds)
    requires a.HasArea() && b.HasArea()
    ensures a.Intersects(b) <==> ShareInterior(a, b)
  {
    if a.Intersects(b) {
      var topLeft, bottomRight := a.origin.Max(b.origin), a.BottomRight().Min(b.BottomRight());
      var p := Point((topLeft.x + bottomRight.x) / 2.0, (topLeft.y + bottomRight.y) / 2.0);
      assert a.Inside(p) && b.Inside(p);
    }
  }

  /** `Union` is the least rectangle that contains both. */
  lemma UnionIsLeast(a: Bounds, b: Bounds, c: Bounds)
    ensures c.Contains(a.Union(b)) <==> c.Contains(a) && c.Contains(b)
  {
  }

  /** By how much a rectangle has to grow, in width and height together, to contain another; nothing if it does already. */
  lemma GrowthIsCost(a: Bounds, b: Bounds)
    ensures a.Union(b).HalfPerimeter() >= a.HalfPerimeter()
    ensures a.Union(b).HalfPerimeter() == a.HalfPerimeter() <==> a.Contains(b)
    ensures a.Contains(b) ==> b.HalfPerimeter() <= a.HalfPerimeter()
  {
  }

  /** What spatial pruning rests on: a query that misses a rectangle misses everything inside it. */
  lemma PruningIsSound(query: Bounds, outer: Bounds, inner: Bounds)
    requires outer.Contains(inner) && query.Intersects(inner)
    ensures query.Intersects(outer)
  {
  }
}
