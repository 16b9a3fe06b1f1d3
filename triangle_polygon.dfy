/**
 * triangle.FromPolygon (triangle/polygon.go): flattens a polygon into the
 * earcut input format, runs earcut (an oracle here) and turns every three
 * returned indices into a Triangle.
 */
module TrianglePolygon {
  import opened Geo
  import opened Decimal
  import opened TriangleData

  /** The number of points over a run of rings. */
  function RingsLength(rings: seq<Ring>): nat {
    if |rings| == 0 then 0 else RingsLength(rings[..|rings| - 1]) + |rings[|rings| - 1]|
  }

  /** All points of the rings, ring after ring. */
  function AllPoints(rings: seq<Ring>): (ps: seq<Point>)
    ensures |ps| == RingsLength(rings)
  {
    if |rings| == 0 then [] else AllPoints(rings[..|rings| - 1]) + rings[|rings| - 1]
  }

  /** The flat coordinate list x0, y0, x1, y1, ... of a run of points. */
  function Coords(ps: seq<Point>): (cs: seq<real>)
    ensures |cs| == 2 * |ps|
  {
    if |ps| == 0 then [] else Coords(ps[..|ps| - 1]) + [ps[|ps| - 1].x, ps[|ps| - 1].y]
  }

  /** Entries 2m and 2m + 1 of the flat list are the coordinates of point m. */
  lemma {:induction false} CoordsAt(ps: seq<Point>, m: int)
    requires 0 <= m < |ps|
    ensures Coords(ps)[2 * m] == ps[m].x && Coords(ps)[2 * m + 1] == ps[m].y
    decreases |ps|
  {
    if m < |ps| - 1 {
      CoordsAt(ps[..|ps| - 1], m);
    }
  }

  /** Where each hole starts in the flattened point list: after the exterior ring and all earlier holes. */
  function HoleStarts(poly: Polygon): (hs: seq<int>)
    requires |poly| > 0
    ensures |hs| == |poly| - 1
    ensures forall k :: 1 <= k < |poly| ==> hs[k - 1] == RingsLength(poly[..k])
  {
    seq(|poly| - 1, k requires 0 <= k < |poly| - 1 => RingsLength(poly[..k + 1]))
  }

  lemma AllPointsSnoc(rings: seq<Ring>, i: nat)
    requires i < |rings|
    ensures AllPoints(rings[..i + 1]) == AllPoints(rings[..i]) + rings[i]
    ensures RingsLength(rings[..i + 1]) == RingsLength(rings[..i]) + |rings[i]|
  {
    assert rings[..i + 1][..i] == rings[..i];
  }

  lemma CoordsSnoc(ps: seq<Point>, p: Point)
    ensures Coords(ps + [p]) == Coords(ps) + [p.x, p.y]
  {
    assert (ps + [p])[..|ps|] == ps;
  }

  /** The inner loop over one ring: appends the ring's coordinates, point by point. */
  method AppendCoords(vertices: seq<real>, ghost before: seq<Point>, ring: Ring) returns (out: seq<real>)
    requires vertices == Coords(before)
    ensures out == Coords(before + ring)
  {
    out := vertices;
    var j := 0;
    assert before + ring[..0] == before;
    while j < |ring|
      invariant 0 <= j <= |ring|
      invariant out == Coords(before + ring[..j])
    {
      assert before + ring[..j + 1] == (before + ring[..j]) + [ring[j]];
      CoordsSnoc(before + ring[..j], ring[j]);
      out := out + [ring[j].x, ring[j].y];
      j := j + 1;
    }
    assert ring[..j] == ring;
  }

  /** The first loop of convertPolygonToEarcut: each hole's start, counted into a preallocated array. */
  method HoleIndices(poly: Polygon) returns (holes: seq<int>)
    requires |poly| > 0
    ensures holes == HoleStarts(poly)
  {
    var totalPoints := |poly[0]|;
    var holeArray := new int[|poly| - 1];
    var currentIndex := totalPoints;
    assert RingsLength(poly[..1]) == |poly[0]| by {
      assert poly[..1][..0] == [];
    }
    var i := 1;
    while i < |poly|
      invariant 1 <= i <= |poly|
      invariant currentIndex == totalPoints == RingsLength(poly[..i])
      invariant forall k :: 1 <= k < i ==> holeArray[k - 1] == RingsLength(poly[..k])
    {
      holeArray[i - 1] := currentIndex;
      AllPointsSnoc(poly, i);
      totalPoints := totalPoints + |poly[i]|;
      currentIndex := currentIndex + |poly[i]|;
      i := i + 1;
    }
    holes := holeArray[..];
  }

  /**
   * convertPolygonToEarcut: the coordinates of the exterior ring and then of
   * each hole, and the start index of every hole.
   */
  method ConvertPolygonToEarcut(poly: Polygon) returns (vertices: seq<real>, holes: seq<int>)
    requires |poly| > 0
    ensures holes == HoleStarts(poly)
    ensures vertices == Coords(AllPoints(poly))
  {
    holes := HoleIndices(poly);
    vertices := AppendCoords([], [], poly[0]);
    assert AllPoints(poly[..1]) == poly[0] by {
      AllPointsSnoc(poly, 0);
      assert AllPoints(poly[..0]) == [];
    }

    var i := 1;
    while i < |poly|
      invariant 1 <= i <= |poly|
      invariant vertices == Coords(AllPoints(poly[..i]))
    {
      AllPointsSnoc(poly, i);
      vertices := AppendCoords(vertices, AllPoints(poly[..i]), poly[i]);
      i := i + 1;
    }
    assert poly[..i] == poly;
  }

  /** What earcut.Earcut(vertices, holes, 2) returns: a flat list of vertex indices, or an error. */
  datatype EarcutResult = Indices(indices: seq<int>) | EarcutError

  type Earcut = (seq<real>, seq<int>) -> EarcutResult

  /**
   * The outcome of FromPolygon: the triangles, the earcut error, or the
   * index-out-of-range panic the source hits when earcut's indices are not
   * whole triples of valid vertex numbers.
   */
  datatype Triangulation = Triangles(triangles: seq<Triangle>) | Failed | IndexPanic

  /** Every index is a vertex of the flat list and they come in whole triples. */
  predicate IndicesUsable(indices: seq<int>, coordCount: int) {
    |indices| % 3 == 0 && forall i :: 0 <= i < |indices| ==> 0 <= indices[i] && 2 * indices[i] + 1 < coordCount
  }

  /** The vertex with number v of the flat coordinate list. */
  function VertexAt(vertices: seq<real>, v: int): Point
    requires 0 <= v && 2 * v + 1 < |vertices|
  {
    Point(vertices[2 * v], vertices[2 * v + 1])
  }

  /** Indices 3k, 3k+1 and 3k+2 exist and name vertices of the flat list. */
  predicate TripleUsable(indices: seq<int>, coordCount: int, k: int) {
    0 <= k && 3 * k + 2 < |indices| &&
    0 <= indices[3 * k] && 2 * indices[3 * k] + 1 < coordCount &&
    0 <= indices[3 * k + 1] && 2 * indices[3 * k + 1] + 1 < coordCount &&
    0 <= indices[3 * k + 2] && 2 * indices[3 * k + 2] + 1 < coordCount
  }

  /** Triangle k: the vertices named by indices 3k, 3k+1, 3k+2, identified by the decimal string of 3k. */
  function TriangleAt(vertices: seq<real>, indices: seq<int>, k: int): (t: Triangle)
    requires TripleUsable(indices, |vertices|, k)
    ensures t.id == NatToString(3 * k)
    ensures t.points == (VertexAt(vertices, indices[3 * k]), VertexAt(vertices, indices[3 * k + 1]),
                         VertexAt(vertices, indices[3 * k + 2]))
  {
    NewTriangle(NatToString(3 * k), (VertexAt(vertices, indices[3 * k]), VertexAt(vertices, indices[3 * k + 1]),
                                     VertexAt(vertices, indices[3 * k + 2])))
  }

  /**
   * The triangles earcut's indices describe, or the panic the source's loop
   * runs into when they are not whole triples of vertex numbers.
   */
  function Triangulate(vertices: seq<real>, indices: seq<int>): (r: Triangulation)
    ensures r.Triangles? <==> IndicesUsable(indices, |vertices|)
    ensures !r.Triangles? ==> r == IndexPanic
    ensures r.Triangles? ==> 3 * |r.triangles| == |indices|
    ensures r.Triangles? ==> forall k :: 0 <= k < |r.triangles| ==>
      TripleUsable(indices, |vertices|, k) && r.triangles[k] == TriangleAt(vertices, indices, k)
  {
    if IndicesUsable(indices, |vertices|) then
      Triangles(seq(|indices| / 3, k requires 0 <= k < |indices| / 3 =>
        UsableTriple(indices, |vertices|, k); TriangleAt(vertices, indices, k)))
    else IndexPanic
  }

  lemma UsableTriple(indices: seq<int>, coordCount: int, k: int)
    requires IndicesUsable(indices, coordCount) && 0 <= k < |indices| / 3
    ensures TripleUsable(indices, coordCount, k)
  {
    assert 3 * k + 2 < |indices|;
  }

  /** A trailing partial triple makes the indices unusable. */
  lemma PartialTripleUnusable(indices: seq<int>, coordCount: int, n: int)
    requires 0 <= 3 * n < |indices| <= 3 * n + 2
    ensures !IndicesUsable(indices, coordCount)
  {
    assert |indices| % 3 == |indices| - 3 * n;
  }

  /** A bad index anywhere makes the indices unusable. */
  lemma BadIndexUnusable(indices: seq<int>, coordCount: int, q: int)
    requires 0 <= q < |indices| && !(0 <= indices[q] && 2 * indices[q] + 1 < coordCount)
    ensures !IndicesUsable(indices, coordCount)
  {
  }

  /** Whole usable triples, each turned into its triangle, are what Triangulate describes. */
  lemma TriangulateOfBuilt(vertices: seq<real>, indices: seq<int>, ts: seq<Triangle>)
    requires |indices| == 3 * |ts|
    requires forall q :: 0 <= q < |indices| ==> 0 <= indices[q] && 2 * indices[q] + 1 < |vertices|
    requires forall k :: 0 <= k < |ts| ==> TripleUsable(indices, |vertices|, k) && ts[k] == TriangleAt(vertices, indices, k)
    ensures Triangulate(vertices, indices) == Triangles(ts)
  {
    assert IndicesUsable(indices, |vertices|);
  }

  /** What FromPolygon computes: Failed exactly when earcut fails, otherwise Triangulate of its indices. */
  function TriangulationOf(p: Polygon, earcut: Earcut): (r: Triangulation)
    requires |p| > 0
    ensures r.Failed? <==> earcut(Coords(AllPoints(p)), HoleStarts(p)).EarcutError?
  {
    var result := earcut(Coords(AllPoints(p)), HoleStarts(p));
    if result.EarcutError? then Failed else Triangulate(Coords(AllPoints(p)), result.indices)
  }

  /**
   * FromPolygon: an earcut error comes back as Failed with no triangles;
   * otherwise triangle k is built from indices 3k..3k+2, and any index
   * outside the vertex list (or a trailing partial triple) panics.
   */
  method FromPolygon(p: Polygon, earcut: Earcut) returns (r: Triangulation)
    requires |p| > 0
    ensures r == TriangulationOf(p, earcut)
  {
    var vertices, holes := ConvertPolygonToEarcut(p);
    var result := earcut(vertices, holes);
    if result.EarcutError? {
      return Failed;
    }
    r := BuildTriangles(vertices, result.indices);
  }

  /** The loop of FromPolygon over earcut's indices, three at a time. */
  method BuildTriangles(vertices: seq<real>, indices: seq<int>) returns (r: Triangulation)
    ensures r == Triangulate(vertices, indices)
  {
    var triangles: seq<Triangle> := [];
    var i := 0;
    ghost var n := 0;
    while i < |indices|
      invariant 0 <= i <= |indices| && i == 3 * n
      invariant forall q :: 0 <= q < i ==> 0 <= indices[q] && 2 * indices[q] + 1 < |vertices|
      invariant |triangles| == n
      invariant forall k :: 0 <= k < n ==> TripleUsable(indices, |vertices|, k) && triangles[k] == TriangleAt(vertices, indices, k)
    {
      if i + 2 >= |indices| {
        PartialTripleUnusable(indices, |vertices|, n);
        return IndexPanic;
      }
      var i1, i2, i3 := indices[i] * 2, indices[i + 1] * 2, indices[i + 2] * 2;
      if i1 < 0 || i1 + 1 >= |vertices| {
        BadIndexUnusable(indices, |vertices|, i);
        return IndexPanic;
      }
      if i2 < 0 || i2 + 1 >= |vertices| {
        BadIndexUnusable(indices, |vertices|, i + 1);
        return IndexPanic;
      }
      if i3 < 0 || i3 + 1 >= |vertices| {
        BadIndexUnusable(indices, |vertices|, i + 2);
        return IndexPanic;
      }
      var points := (Point(vertices[i1], vertices[i1 + 1]), Point(vertices[i2], vertices[i2 + 1]),
                     Point(vertices[i3], vertices[i3 + 1]));
      assert TripleUsable(indices, |vertices|, n);
      assert NewTriangle(NatToString(i), points) == TriangleAt(vertices, indices, n) by {
        assert points == (VertexAt(vertices, indices[3 * n]), VertexAt(vertices, indices[3 * n + 1]),
                          VertexAt(vertices, indices[3 * n + 2]));
      }
      triangles := triangles + [NewTriangle(NatToString(i), points)];
      i := i + 3;
      n := n + 1;
    }

    TriangulateOfBuilt(vertices, indices, triangles);
    r := Triangles(triangles);
  }

  /** Distinct triangles of one polygon get distinct ids. */
  lemma TriangleIdsDistinct(vertices: seq<real>, indices: seq<int>, k1: int, k2: int)
    requires TripleUsable(indices, |vertices|, k1) && TripleUsable(indices, |vertices|, k2) && k1 != k2
    ensures TriangleAt(vertices, indices, k1).id != TriangleAt(vertices, indices, k2).id
  {
    if NatToString(3 * k1) == NatToString(3 * k2) {
      NatToStringInjective(3 * k1, 3 * k2);
    }
  }
}
