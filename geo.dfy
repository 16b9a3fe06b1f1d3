/**
 * The planar geometry values the source takes from the orb library:
 * points, rings, polygons and axis-aligned bounds. Only the operations the
 * core calls are modelled: Bound.Contains, Bound.IsEmpty, Bound.Union (written
 * as the componentwise min/max that orb's chain of Extend calls computes) and
 * the bound of a ring or polygon.
 */
module Geo {
  import opened Numeric

  /** orb.Point{x, y}: longitude first, latitude second. */
  datatype Point = Point(x: real, y: real)

  type Ring = seq<Point>

  /** orb.Polygon: the exterior ring first, then the holes. */
  type Polygon = seq<Ring>

  datatype Bound = Bound(min: Point, max: Point)

  /** orb's bound of an empty point set. */
  const EmptyBound := Bound(Point(1.0, 1.0), Point(-1.0, -1.0))

  predicate IsEmpty(b: Bound) {
    b.min.x > b.max.x || b.min.y > b.max.y
  }

  /** Bound.Contains: closed on every side. */
  predicate Contains(b: Bound, p: Point) {
    b.min.y <= p.y <= b.max.y && b.min.x <= p.x <= b.max.x
  }

  /** Every point of `small` lies in `big`. */
  ghost predicate Covers(big: Bound, small: Bound) {
    forall p :: Contains(small, p) ==> Contains(big, p)
  }

  /** Bound.Union: encloses both; an empty `other` changes nothing. */
  function Union(b: Bound, other: Bound): (r: Bound)
    ensures Covers(r, b) && Covers(r, other)
    ensures IsEmpty(other) ==> r == b
  {
    if IsEmpty(other) then b
    else Bound(Point(Min(b.min.x, other.min.x), Min(b.min.y, other.min.y)),
               Point(Max(b.max.x, other.max.x), Max(b.max.y, other.max.y)))
  }

  /** The bound of a non-empty run of points, folded from the left. */
  function PointsBound(ps: seq<Point>): (r: Bound)
    requires |ps| > 0
    ensures forall i :: 0 <= i < |ps| ==> Contains(r, ps[i])
    ensures !IsEmpty(r)
  {
    if |ps| == 1 then Bound(ps[0], ps[0])
    else
      var b := PointsBound(ps[..|ps| - 1]);
      var p := ps[|ps| - 1];
      assert forall i :: 0 <= i < |ps| - 1 ==> ps[..|ps| - 1][i] == ps[i];
      Bound(Point(Min(b.min.x, p.x), Min(b.min.y, p.y)), Point(Max(b.max.x, p.x), Max(b.max.y, p.y)))
  }

  /** Ring.Bound (orb's MultiPoint bound): the empty bound for no points. */
  function RingBound(r: Ring): Bound {
    if |r| == 0 then EmptyBound else PointsBound(r)
  }

  /** Polygon.Bound: the bound of the exterior ring. */
  function PolygonBound(p: Polygon): Bound {
    if |p| == 0 then EmptyBound else RingBound(p[0])
  }
}
