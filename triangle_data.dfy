/**
 * triangle.Triangle (triangle/data.go): an identified triangle with its
 * precomputed bounding box. ID(), Points() and Bound() are the datatype's
 * fields `id`, `points` and `bounds`. The file's min2 and max2, and the
 * copies of them in polygon/spatial.go, are Numeric.Min and Numeric.Max.
 */
module TriangleData {
  import opened Geo
  import opened Numeric

  datatype Triangle = Triangle(id: string, points: (Point, Point, Point), bounds: Bound)

  /** min3: the least of three values. */
  function Min3(a: real, b: real, c: real): (r: real)
    ensures r <= a && r <= b && r <= c
    ensures r == a || r == b || r == c
  {
    Min(Min(a, b), c)
  }

  /** max3: the greatest of three values. */
  function Max3(a: real, b: real, c: real): (r: real)
    ensures r >= a && r >= b && r >= c
    ensures r == a || r == b || r == c
  {
    Max(Max(a, b), c)
  }

  /**
   * NewTriangle: keeps the id and points and stores the tightest box around
   * the three points: each corner coordinate is attained by some vertex.
   */
  function NewTriangle(id: string, points: (Point, Point, Point)): (t: Triangle)
    ensures t.id == id && t.points == points
    ensures Contains(t.bounds, points.0) && Contains(t.bounds, points.1) && Contains(t.bounds, points.2)
    ensures t.bounds.min.x in {points.0.x, points.1.x, points.2.x}
    ensures t.bounds.min.y in {points.0.y, points.1.y, points.2.y}
    ensures t.bounds.max.x in {points.0.x, points.1.x, points.2.x}
    ensures t.bounds.max.y in {points.0.y, points.1.y, points.2.y}
  {
    var (p0, p1, p2) := points;
    Triangle(id, points, Bound(
      Point(Min3(p0.x, p1.x, p2.x), Min3(p0.y, p1.y, p2.y)),
      Point(Max3(p0.x, p1.x, p2.x), Max3(p0.y, p1.y, p2.y))))
  }

  /** Data: one closed ring, the three vertices followed by the first again. */
  function Data(t: Triangle): (rings: Polygon)
    ensures |rings| == 1 && |rings[0]| == 4
    ensures rings[0][0] == rings[0][3]
    ensures rings[0][..3] == [t.points.0, t.points.1, t.points.2]
  {
    [[t.points.0, t.points.1, t.points.2, t.points.0]]
  }

  /** orb's bound of the ring returned by Data is the box NewTriangle stored. */
  lemma DataBoundIsTriangleBound(id: string, points: (Point, Point, Point))
    ensures PolygonBound(Data(NewTriangle(id, points))) == NewTriangle(id, points).bounds
  {
    var (p0, p1, p2) := points;
    var ring := Data(NewTriangle(id, points))[0];
    assert ring[..3] == [p0, p1, p2];
    assert ring[..3][..2] == [p0, p1];
    assert ring[..3][..2][..1] == [p0];
    var b1 := PointsBound([p0]);
    var b2 := PointsBound([p0, p1]);
    var b3 := PointsBound([p0, p1, p2]);
    assert b1 == Bound(p0, p0);
    assert b2 == Bound(Point(Min(p0.x, p1.x), Min(p0.y, p1.y)), Point(Max(p0.x, p1.x), Max(p0.y, p1.y)));
    assert b3 == Bound(Point(Min3(p0.x, p1.x, p2.x), Min3(p0.y, p1.y, p2.y)),
                       Point(Max3(p0.x, p1.x, p2.x), Max3(p0.y, p1.y, p2.y)));
  }
}
