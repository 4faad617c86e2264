/** Plane geometry of the arena: points and the distance-threshold proximity test. */
module Geometry {

  /** A position in arena pixels; the origin is the top-left corner of the arena. */
  datatype Point = Point(x: real, y: real)

  /** The square of the Euclidean distance between two points. */
  function SqDist(a: Point, b: Point): (d: real)
    ensures d >= 0.0
  {
    (a.x - b.x) * (a.x - b.x) + (a.y - b.y) * (a.y - b.y)
  }

  /** `d` is the Euclidean distance between `a` and `b`, the value a square root would return. */
  ghost predicate IsDistance(d: real, a: Point, b: Point) {
    d >= 0.0 && d * d == SqDist(a, b)
  }

  /**
   * The proximity test: the two points are strictly closer than `threshold`.
   * The square root is avoided by comparing squares, which is only sound for a
   * positive threshold; a distance is never below a threshold that is not.
   */
  function IsColliding(a: Point, b: Point, threshold: real := 25.0): bool {
    0.0 < threshold && SqDist(a, b) < threshold * threshold
  }

  /** The squared comparison agrees with comparing the Euclidean distance itself. */
  lemma CollidingIffCloserThan(a: Point, b: Point, threshold: real, d: real)
    requires IsDistance(d, a, b)
    ensures IsColliding(a, b, threshold) <==> d < threshold
  {
    if d < threshold {
      calc {
        SqDist(a, b);
      == d * d;
      <= d * threshold;
      <  threshold * threshold;
      }
    } else if 0.0 < threshold {
      calc {
        threshold * threshold;
      <= threshold * d;
      <= d * d;
      == SqDist(a, b);
      }
    }
  }

  /** The order of the two objects does not matter. */
  lemma CollidingIsSymmetric(a: Point, b: Point, threshold: real)
    ensures IsColliding(a, b, threshold) == IsColliding(b, a, threshold)
  {
    assert (a.x - b.x) * (a.x - b.x) == (b.x - a.x) * (b.x - a.x);
    assert (a.y - b.y) * (a.y - b.y) == (b.y - a.y) * (b.y - a.y);
  }

  /** Two points at least `threshold` apart horizontally never collide. */
  lemma ApartHorizontallyNeverCollide(a: Point, b: Point, threshold: real)
    requires 0.0 <= threshold <= b.x - a.x
    ensures !IsColliding(a, b, threshold)
  {
    var gap := b.x - a.x;
    assert (a.x - b.x) * (a.x - b.x) == gap * gap;
    assert threshold * threshold <= threshold * gap;
    assert threshold * gap <= gap * gap;
    assert (a.y - b.y) * (a.y - b.y) >= 0.0;
  }
}
