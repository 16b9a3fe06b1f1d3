/**
 * polygon.Index (polygon/spatial.go): polygons cut into triangles, an R-tree
 * over the triangles and a lookup table by polygon id. The R-tree's
 * intersection searches are oracles over the stored entries; what the index
 * does with their answers is modelled.
 */
module Spatial {
  import opened Geo
  import opened Outcomes
  import opened TriangleData
  import opened TrianglePolygon

  /** A value of the polygon.Polygon interface: its ID() and Data(); Bound() is the bound of Data(). */
  datatype Shape = Shape(id: string, rings: Polygon)

  /** A triangle, seen through the polygon.Polygon interface. */
  function TriangleShape(t: Triangle): (s: Shape)
    ensures s.id == t.id && PolygonBound(s.rings) == NewTriangle(t.id, t.points).bounds
  {
    DataBoundIsTriangleBound(t.id, t.points);
    Shape(t.id, Data(NewTriangle(t.id, t.points)))
  }

  /** triangleWrapper: a triangle stored in the R-tree and the polygon it was cut from. */
  datatype Entry = Entry(points: (Point, Point, Point), original: Shape)

  /** The R-tree's SearchIntersect for the 0.01 x 0.01 box at a point, over the stored entries. */
  type Search = (seq<Entry>, Point) -> seq<Entry>

  /** The R-tree's SearchIntersectWithLimit(1, box) over the stored entries. */
  type BoxSearch = (seq<Entry>, Bound) -> seq<Entry>

  /** sign: the cross product (p1 - p3) x (p2 - p3); it vanishes when two of the points coincide. */
  function Sign(p1: Point, p2: Point, p3: Point): (r: real)
    ensures p1 == p3 || p2 == p3 || p1 == p2 ==> r == 0.0
  {
    (p1.x - p3.x) * (p2.y - p3.y) - (p2.x - p3.x) * (p1.y - p3.y)
  }

  /** Swapping the last two points flips the sign. */
  lemma SignSwap(a: Point, b: Point, c: Point)
    ensures Sign(a, c, b) == -Sign(a, b, c)
  {
    assert (a.x - b.x) * (c.y - b.y) - (c.x - b.x) * (a.y - b.y)
        == -((a.x - c.x) * (b.y - c.y) - (b.x - c.x) * (a.y - c.y));
  }

  /**
   * PointInTriangle: the three signs are not a mix of strictly negative and
   * strictly positive ones, i.e. they are all >= 0 or all <= 0 (the edges count as inside).
   */
  function PointInTriangle(pt: Point, v1: Point, v2: Point, v3: Point): (r: bool)
    ensures r <==> (Sign(pt, v1, v2) >= 0.0 && Sign(pt, v2, v3) >= 0.0 && Sign(pt, v3, v1) >= 0.0) ||
                   (Sign(pt, v1, v2) <= 0.0 && Sign(pt, v2, v3) <= 0.0 && Sign(pt, v3, v1) <= 0.0)
  {
    var d1, d2, d3 := Sign(pt, v1, v2), Sign(pt, v2, v3), Sign(pt, v3, v1);
    var hasNeg := d1 < 0.0 || d2 < 0.0 || d3 < 0.0;
    var hasPos := d1 > 0.0 || d2 > 0.0 || d3 > 0.0;
    !(hasNeg && hasPos)
  }

  /** The test does not depend on which vertex comes first or on the orientation. */
  lemma PointInTriangleSymmetric(pt: Point, v1: Point, v2: Point, v3: Point)
    ensures PointInTriangle(pt, v1, v2, v3) == PointInTriangle(pt, v2, v3, v1)
    ensures PointInTriangle(pt, v1, v2, v3) == PointInTriangle(pt, v3, v2, v1)
  {
    SignSwap(pt, v1, v2);
    SignSwap(pt, v2, v3);
    SignSwap(pt, v3, v1);
  }

  /** Every vertex lies in its own triangle. */
  lemma VerticesInside(v1: Point, v2: Point, v3: Point)
    ensures PointInTriangle(v1, v1, v2, v3)
    ensures PointInTriangle(v2, v1, v2, v3)
    ensures PointInTriangle(v3, v1, v2, v3)
  {
  }

  /** Whether entry e's triangle contains p. */
  predicate Hit(p: Point, e: Entry) {
    PointInTriangle(p, e.points.0, e.points.1, e.points.2)
  }

  predicate HasId(polys: seq<Shape>, id: string) {
    exists i :: 0 <= i < |polys| && polys[i].id == id
  }

  /**
   * What PointInPolygons collects from a run of candidates: each candidate
   * whose polygon id is not yet listed and whose triangle contains p adds its
   * polygon. No id is listed twice.
   */
  function Collect(cands: seq<Entry>, p: Point): (polys: seq<Shape>)
    ensures forall i, j :: 0 <= i < j < |polys| ==> polys[i].id != polys[j].id
    decreases |cands|
  {
    if |cands| == 0 then []
    else
      var acc := Collect(cands[..|cands| - 1], p);
      var e := cands[|cands| - 1];
      if HasId(acc, e.original.id) || !Hit(p, e) then acc else acc + [e.original]
  }

  /** An id is listed exactly when some candidate with that polygon id contains p. */
  lemma {:induction false} CollectIds(cands: seq<Entry>, p: Point, id: string)
    ensures HasId(Collect(cands, p), id) <==>
      exists k :: 0 <= k < |cands| && Hit(p, cands[k]) && cands[k].original.id == id
    decreases |cands|
  {
    if |cands| > 0 {
      var init := cands[..|cands| - 1];
      var e := cands[|cands| - 1];
      CollectIds(init, p, id);
      var acc := Collect(init, p);
      var r := Collect(cands, p);
      if HasId(r, id) {
        var i :| 0 <= i < |r| && r[i].id == id;
        if i < |acc| {
          assert r[i] == acc[i];
          var k :| 0 <= k < |init| && Hit(p, init[k]) && init[k].original.id == id;
          assert cands[k] == init[k];
        } else {
          assert Hit(p, e) && e.original.id == id;
        }
      }
      if exists k :: 0 <= k < |cands| && Hit(p, cands[k]) && cands[k].original.id == id {
        var k :| 0 <= k < |cands| && Hit(p, cands[k]) && cands[k].original.id == id;
        if k < |init| {
          assert init[k] == cands[k];
          var i :| 0 <= i < |acc| && acc[i].id == id;
          assert r[i] == acc[i];
        } else if !HasId(acc, id) {
          assert r[|acc|] == e.original;
        } else {
          var i :| 0 <= i < |acc| && acc[i].id == id;
          assert r[i] == acc[i];
        }
      }
    }
  }

  /** Every listed polygon is the polygon of a candidate that contains p. */
  lemma {:induction false} CollectOrigins(cands: seq<Entry>, p: Point, i: int)
    requires 0 <= i < |Collect(cands, p)|
    ensures exists k :: 0 <= k < |cands| && Hit(p, cands[k]) && cands[k].original == Collect(cands, p)[i]
    decreases |cands|
  {
    var init := cands[..|cands| - 1];
    var acc := Collect(init, p);
    if i < |acc| {
      CollectOrigins(init, p, i);
      var k :| 0 <= k < |init| && Hit(p, init[k]) && init[k].original == acc[i];
      assert cands[k] == init[k];
    } else {
      assert Hit(p, cands[|cands| - 1]);
    }
  }

  /**
   * The list only grows as candidates are processed: the result for a prefix
   * of the candidates is a prefix of the full result, so polygons appear in
   * the order of their first containing candidate.
   */
  lemma {:induction false} CollectPrefix(cands: seq<Entry>, p: Point, k: int)
    requires 0 <= k <= |cands|
    ensures |Collect(cands[..k], p)| <= |Collect(cands, p)|
    ensures Collect(cands, p)[..|Collect(cands[..k], p)|] == Collect(cands[..k], p)
    decreases |cands| - k
  {
    if k < |cands| {
      CollectPrefix(cands, p, k + 1);
      assert cands[..k + 1][..k] == cands[..k];
    } else {
      assert cands[..k] == cands;
    }
  }

  /** Some candidate contains p exactly when the collected list is non-empty. */
  lemma AnyHitIffCollected(cands: seq<Entry>, p: Point)
    ensures (exists k :: 0 <= k < |cands| && Hit(p, cands[k])) <==> |Collect(cands, p)| > 0
  {
    if exists k :: 0 <= k < |cands| && Hit(p, cands[k]) {
      var k :| 0 <= k < |cands| && Hit(p, cands[k]);
      CollectIds(cands, p, cands[k].original.id);
    }
    if |Collect(cands, p)| > 0 {
      CollectIds(cands, p, Collect(cands, p)[0].id);
    }
  }

  /** The R-tree entries for the triangles of a polygon, all pointing to it. */
  function EntriesOf(ts: seq<Triangle>, p: Shape): (es: seq<Entry>)
    ensures |es| == |ts|
    ensures forall k :: 0 <= k < |ts| ==> es[k].points == ts[k].points && es[k].original == p
  {
    seq(|ts|, k requires 0 <= k < |ts| => Entry(ts[k].points, p))
  }

  /** The R-tree entries CreateIndexFromTriangles builds: each triangle is its own polygon. */
  function TriangleEntries(ts: seq<Triangle>): (es: seq<Entry>)
    ensures |es| == |ts|
    ensures forall k :: 0 <= k < |ts| ==> es[k].points == ts[k].points && es[k].original.id == ts[k].id
  {
    seq(|ts|, k requires 0 <= k < |ts| => Entry(ts[k].points, TriangleShape(ts[k])))
  }

  /** The id lookup table of CreateIndexFromTriangles: a later triangle with the same id replaces an earlier one. */
  function TriangleLookup(ts: seq<Triangle>): (m: map<string, Shape>)
    ensures m.Keys == set k | 0 <= k < |ts| :: ts[k].id
    ensures forall id :: id in m ==> m[id].id == id
  {
    if |ts| == 0 then map[]
    else
      var init := ts[..|ts| - 1];
      var t := ts[|ts| - 1];
      var m := TriangleLookup(init);
      assert forall k :: 0 <= k < |init| ==> init[k] == ts[k];
      assert (set k | 0 <= k < |ts| :: ts[k].id) == (set k | 0 <= k < |init| :: init[k].id) + {t.id};
      m[t.id := TriangleShape(t)]
  }

  /** The union of the triangles' bounds, folded from `start`. */
  function UnionOfBounds(start: Bound, ts: seq<Triangle>): (b: Bound)
    ensures Covers(b, start)
    ensures forall k :: 0 <= k < |ts| ==> Covers(b, ts[k].bounds)
  {
    if |ts| == 0 then start
    else
      var init := ts[..|ts| - 1];
      var b := UnionOfBounds(start, init);
      assert forall k :: 0 <= k < |init| ==> init[k] == ts[k];
      Union(b, ts[|ts| - 1].bounds)
  }

  /** The search box of the source's New: empty (Min above Max), 1e10 on each side. */
  const InitialBound := Bound(Point(1e10, 1e10), Point(-1e10, -1e10))

  /** The result of Insert: done, earcut's error, or the panic of an unusable triangulation. */
  datatype InsertOutcome = Inserted | InsertError | InsertPanic

  class Index {
    /** The triangles stored in the R-tree, in insertion order. */
    var entries: seq<Entry>
    var polys: map<string, Shape>
    var bounds: Bound

    /** New: no triangles, no polygons, and an empty search box. */
    constructor New()
      ensures entries == [] && polys == map[] && bounds == InitialBound
      ensures IsEmpty(bounds)
    {
      entries := [];
      polys := map[];
      bounds := InitialBound;
    }

    /** PolygonByID: the polygon stored under id, nil when there is none. */
    function PolygonByID(id: string): (r: Option<Shape>)
      reads this
      ensures r.Some? <==> id in polys
      ensures r.Some? ==> r.value == polys[id]
    {
      if id in polys then Some(polys[id]) else None
    }

    /** getIntersectingTriangles: nothing outside the index bounds, otherwise the R-tree's candidates. */
    function GetIntersectingTriangles(p: Point, search: Search): (cs: seq<Entry>)
      reads this
      ensures !Contains(bounds, p) ==> cs == []
      ensures Contains(bounds, p) ==> cs == search(entries, p)
    {
      if !Contains(bounds, p) then [] else search(entries, p)
    }

    /**
     * PointInPolygons: the polygons owning a candidate triangle that contains
     * p, each id once, in the order of their first containing candidate.
     */
    method PointInPolygons(p: Point, search: Search) returns (polys': seq<Shape>)
      ensures polys' == Collect(GetIntersectingTriangles(p, search), p)
    {
      var results := GetIntersectingTriangles(p, search);
      polys' := [];
      var i := 0;
      while i < |results|
        invariant 0 <= i <= |results|
        invariant polys' == Collect(results[..i], p)
      {
        var tw := results[i];
        assert results[..i + 1][..i] == results[..i];
        var found := false;
        var j := 0;
        while j < |polys'|
          invariant 0 <= j <= |polys'|
          invariant !found ==> forall k :: 0 <= k < j ==> polys'[k].id != tw.original.id
          invariant found ==> HasId(polys', tw.original.id)
        {
          if polys'[j].id == tw.original.id {
            found := true;
            break;
          }
          j := j + 1;
        }
        assert found <==> HasId(polys', tw.original.id);
        if found {
          i := i + 1;
          continue;
        }
        if PointInTriangle(p, tw.points.0, tw.points.1, tw.points.2) {
          polys' := polys' + [tw.original];
        }
        i := i + 1;
      }
      assert results[..i] == results;
    }

    /** PointInAnyPolygon: whether some candidate triangle contains p. */
    method PointInAnyPolygon(p: Point, search: Search) returns (found: bool)
      ensures found <==> exists k :: 0 <= k < |GetIntersectingTriangles(p, search)| &&
                                     Hit(p, GetIntersectingTriangles(p, search)[k])
    {
      var results := GetIntersectingTriangles(p, search);
      var i := 0;
      while i < |results|
        invariant 0 <= i <= |results|
        invariant forall k :: 0 <= k < i ==> !Hit(p, results[k])
      {
        var tw := results[i];
        if PointInTriangle(p, tw.points.0, tw.points.1, tw.points.2) {
          return true;
        }
        i := i + 1;
      }
      return false;
    }

    /** BoundsInAnyPolygon: whether the R-tree has an entry whose box meets b. */
    function BoundsInAnyPolygon(b: Bound, boxSearch: BoxSearch): (r: bool)
      reads this
      ensures r <==> |boxSearch(entries, b)| > 0
    {
      |boxSearch(entries, b)| > 0
    }

    /**
     * Insert: triangulates the polygon; on success grows the bounds by the
     * polygon's bound, stores one entry per triangle and files the polygon
     * under its id. A failed triangulation changes nothing; a polygon without
     * rings panics at the exterior-ring read of convertPolygonToEarcut.
     */
    method Insert(p: Shape, earcut: Earcut) returns (r: InsertOutcome)
      modifies this
      ensures |p.rings| == 0 ==> r == InsertPanic && unchanged(this)
      ensures |p.rings| > 0 && TriangulationOf(p.rings, earcut).Failed? ==> r == InsertError && unchanged(this)
      ensures |p.rings| > 0 && TriangulationOf(p.rings, earcut).IndexPanic? ==> r == InsertPanic && unchanged(this)
      ensures |p.rings| > 0 && TriangulationOf(p.rings, earcut).Triangles? ==>
        r == Inserted &&
        entries == old(entries) + EntriesOf(TriangulationOf(p.rings, earcut).triangles, p) &&
        polys == old(polys)[p.id := p] &&
        bounds == Union(old(bounds), PolygonBound(p.rings))
    {
      var poly := p.rings;
      if |poly| == 0 {
        return InsertPanic;
      }
      var triangulation := FromPolygon(poly, earcut);
      if triangulation.Failed? {
        return InsertError;
      }
      if triangulation.IndexPanic? {
        return InsertPanic;
      }
      var triangles := triangulation.triangles;
      bounds := Union(bounds, PolygonBound(poly));
      var i := 0;
      while i < |triangles|
        invariant 0 <= i <= |triangles|
        invariant entries == old(entries) + EntriesOf(triangles[..i], p)
        invariant polys == old(polys) && bounds == Union(old(bounds), PolygonBound(poly))
      {
        assert EntriesOf(triangles[..i + 1], p) == EntriesOf(triangles[..i], p) + [Entry(triangles[i].points, p)];
        entries := entries + [Entry(triangles[i].points, p)];
        i := i + 1;
      }
      assert triangles[..i] == triangles;
      polys := polys[p.id := p];
      return Inserted;
    }
  }

  /** The loop of createIndexFromTriangles: the entries, the id table and the folded bounds. */
  method IndexContents(triangles: seq<Triangle>) returns (spatials: seq<Entry>, lookupMap: map<string, Shape>, bounds: Bound)
    requires |triangles| > 0
    ensures spatials == TriangleEntries(triangles) && lookupMap == TriangleLookup(triangles)
    ensures bounds == UnionOfBounds(triangles[0].bounds, triangles)
  {
    lookupMap, spatials := map[], [];
    bounds := triangles[0].bounds;
    var i := 0;
    while i < |triangles|
      invariant 0 <= i <= |triangles|
      invariant bounds == UnionOfBounds(triangles[0].bounds, triangles[..i])
      invariant lookupMap == TriangleLookup(triangles[..i])
      invariant spatials == TriangleEntries(triangles[..i])
    {
      var tri := triangles[i];
      assert triangles[..i + 1][..i] == triangles[..i];
      bounds := Union(bounds, tri.bounds);
      var poly := TriangleShape(tri);
      lookupMap := lookupMap[poly.id := poly];
      assert TriangleEntries(triangles[..i + 1]) == spatials + [Entry(tri.points, poly)];
      spatials := spatials + [Entry(tri.points, poly)];
      i := i + 1;
    }
    assert triangles[..i] == triangles;
  }

  /**
   * CreateIndexFromTriangles: no index for an empty list; otherwise every
   * triangle is an entry and its own polygon, and the bounds are the union of
   * the triangles' bounds.
   */
  method CreateIndexFromTriangles(triangles: seq<Triangle>) returns (idx: Index?)
    ensures idx == null <==> |triangles| == 0
    ensures idx != null ==> fresh(idx)
    ensures idx != null ==> idx.entries == TriangleEntries(triangles) && idx.polys == TriangleLookup(triangles)
    ensures idx != null ==> idx.bounds == UnionOfBounds(triangles[0].bounds, triangles)
  {
    if |triangles| == 0 {
      return null;
    }
    var spatials, lookupMap, bounds := IndexContents(triangles);
    idx := new Index.New();
    idx.entries, idx.polys, idx.bounds := spatials, lookupMap, bounds;
  }
}
