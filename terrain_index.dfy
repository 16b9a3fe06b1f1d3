/**
 * terrain.GeoCoverage as terrain/index.go builds it: six spatial indexes
 * (ice, land, inner and outer deserts, inner and outer high-fix zones) and
 * the inner/outer distance factor computed from a pair of them.
 */
module TerrainIndex {
  import opened Numeric
  import opened Geo
  import opened Outcomes
  import opened Spatial

  /** The polygon.SpatialIndexer interface, as the queries GeoCoverage makes of it. */
  datatype Indexer = Indexer(
    pointInPolygons: Point -> seq<Shape>,
    pointInAnyPolygon: Point -> bool,
    boundsInAnyPolygon: Bound -> bool,
    polygonByID: string -> Option<Shape>)

  /** polygon.DistanceToPolygon. */
  type Distance = (Point, Shape) -> real

  /** The coverage indexes; `distance` is the package function every factor query uses. */
  datatype GeoCoverage = GeoCoverage(
    ice: Indexer, innerDeserts: Indexer, outerDeserts: Indexer, land: Indexer,
    highFixInner: Indexer, highFixOuter: Indexer, distance: Distance)

  /**
   * The float64 a factor query produces, or how it ends instead: NaN (0/0),
   * a nil-pointer panic, or log.Fatalf.
   */
  datatype Factor = Value(v: real) | NaN | Panic | Fatal

  /** maxDesertInnerOuterDistance, declared by the source and not used by it. */
  const MaxDesertInnerOuterDistance: real := 0.56

  /**
   * 1 - max(0, min(dI / (dI + dO), 1)) in float64 arithmetic: NaN for 0/0;
   * a zero sum with a non-zero dI divides to an infinity, which the clamp
   * turns into 1 or 0.
   */
  function Ratio(dI: real, dO: real): (f: Factor)
    ensures dI + dO != 0.0 ==> f.Value? && f.v == 1.0 - Clamp(dI / (dI + dO), 0.0, 1.0)
    ensures f.Value? ==> 0.0 <= f.v <= 1.0
    ensures f == NaN <==> dI == 0.0 && dO == 0.0
  {
    if dI + dO != 0.0 then Value(1.0 - Clamp(dI / (dI + dO), 0.0, 1.0))
    else if dI == 0.0 then NaN
    else if dI > 0.0 then Value(0.0)
    else Value(1.0)
  }

  /** With distances that are not negative the factor is the outer distance's share of the sum. */
  lemma RatioIsOuterShare(dI: real, dO: real)
    requires dI >= 0.0 && dO >= 0.0 && dI + dO > 0.0
    ensures Ratio(dI, dO) == Value(dO / (dI + dO))
  {
    var s := dI + dO;
    FractionBounds(dI, s);
    var x, y := dI / s, dO / s;
    assert x * s == dI && y * s == dO;
    assert (x + y - 1.0) * s == x * s + y * s - s;
    ZeroProduct(x + y - 1.0, s);
  }

  lemma FractionBounds(a: real, s: real)
    requires 0.0 <= a <= s && s > 0.0
    ensures 0.0 <= a / s <= 1.0
  {
    var q := a / s;
    assert q * s == a;
    assert (1.0 - q) * s == s - a;
  }

  lemma ZeroProduct(z: real, s: real)
    requires s != 0.0 && z * s == 0.0
    ensures z == 0.0
  {
  }

  predicate AllFound(dps: seq<Option<Shape>>) {
    forall i :: 0 <= i < |dps| ==> dps[i].Some?
  }

  /** The first polygon at the least distance: a later one replaces it only when strictly closer. */
  function NearestIndex(point: Point, dps: seq<Option<Shape>>, distance: Distance): (k: nat)
    requires |dps| > 0 && AllFound(dps)
    ensures k < |dps|
    ensures forall j :: 0 <= j < |dps| ==> distance(point, dps[k].value) <= distance(point, dps[j].value)
    ensures forall j :: 0 <= j < k ==> distance(point, dps[j].value) > distance(point, dps[k].value)
  {
    if |dps| == 1 then 0
    else
      var init := dps[..|dps| - 1];
      assert forall j :: 0 <= j < |init| ==> init[j] == dps[j];
      var k := NearestIndex(point, init, distance);
      if distance(point, dps[|dps| - 1].value) < distance(point, dps[k].value) then |dps| - 1 else k
  }

  /** The inner polygon with the id of each outer polygon, in the order of the outer list. */
  function InnerByOuterIds(inner: Indexer, outerPolys: seq<Shape>): (dps: seq<Option<Shape>>)
    ensures |dps| == |outerPolys|
    ensures forall i :: 0 <= i < |dps| ==> dps[i] == inner.polygonByID(outerPolys[i].id)
  {
    seq(|outerPolys|, i requires 0 <= i < |outerPolys| => inner.polygonByID(outerPolys[i].id))
  }

  /**
   * What distanceFactorForPoint computes: 0 outside every outer polygon, 1
   * inside an inner one, otherwise the ratio of the distances to the nearest
   * inner polygon (among those sharing an id with a containing outer polygon)
   * and to the outer polygon with the same id.
   */
  function DistanceFactor(point: Point, inner: Indexer, outer: Indexer, distance: Distance): (f: Factor)
    ensures |outer.pointInPolygons(point)| == 0 ==> f == Value(0.0)
    ensures |outer.pointInPolygons(point)| > 0 && |inner.pointInPolygons(point)| > 0 ==> f == Value(1.0)
    ensures f.Value? ==> 0.0 <= f.v <= 1.0
  {
    var outerPolys := outer.pointInPolygons(point);
    if |outerPolys| == 0 then Value(0.0)
    else if |inner.pointInPolygons(point)| > 0 then Value(1.0)
    else
      var dps := InnerByOuterIds(inner, outerPolys);
      if !AllFound(dps) then Panic
      else
        var nearest := dps[NearestIndex(point, dps, distance)].value;
        var outerPoly := outer.polygonByID(nearest.id);
        if outerPoly.None? then Fatal
        else Ratio(distance(point, nearest), distance(point, outerPoly.value))
  }

  /** distanceFactorForPoint, with its lookup of the inner polygons and its running minimum. */
  method DistanceFactorForPoint(point: Point, inner: Indexer, outer: Indexer, distance: Distance) returns (f: Factor)
    ensures f == DistanceFactor(point, inner, outer, distance)
  {
    var outerPolys := outer.pointInPolygons(point);
    if |outerPolys| == 0 {
      return Value(0.0);
    }
    var innerPolys := inner.pointInPolygons(point);
    if |innerPolys| > 0 {
      return Value(1.0);
    }

    var distancePolygons := new Option<Shape>[|outerPolys|];
    var i := 0;
    while i < |outerPolys|
      invariant 0 <= i <= |outerPolys|
      invariant forall k :: 0 <= k < i ==> distancePolygons[k] == inner.polygonByID(outerPolys[k].id)
    {
      var innerPoly := inner.polygonByID(outerPolys[i].id);
      if innerPoly.None? {
        distancePolygons[i] := Some(outerPolys[i]);
      }
      distancePolygons[i] := innerPoly;
      i := i + 1;
    }
    ghost var dps := InnerByOuterIds(inner, outerPolys);
    assert distancePolygons[..] == dps;

    if distancePolygons[0].None? {
      return Panic;
    }
    var idWithDistanceToInner := distancePolygons[0].value.id;
    var distanceToInner := distance(point, distancePolygons[0].value);
    ghost var best := 0;
    assert dps[..1] == [dps[0]];
    if |outerPolys| > 1 {
      i := 1;
      while i < |outerPolys|
        invariant 1 <= i <= |outerPolys|
        invariant AllFound(dps[..i]) && best == NearestIndex(point, dps[..i], distance)
        invariant idWithDistanceToInner == dps[best].value.id
        invariant distanceToInner == distance(point, dps[best].value)
      {
        assert dps[..i + 1][..i] == dps[..i];
        if distancePolygons[i].None? {
          return Panic;
        }
        var d := distance(point, distancePolygons[i].value);
        if d < distanceToInner {
          distanceToInner := d;
          idWithDistanceToInner := distancePolygons[i].value.id;
          best := i;
        }
        i := i + 1;
      }
    }
    assert dps[..|outerPolys|] == dps;

    var outerDistancePoly := outer.polygonByID(idWithDistanceToInner);
    if outerDistancePoly.None? {
      return Fatal;
    }
    var distanceToOuter := distance(point, outerDistancePoly.value);
    return Ratio(distanceToInner, distanceToOuter);
  }

  /** IsPointInLand: the land index's answer for (lon, lat). */
  function IsPointInLand(gc: GeoCoverage, lon: real, lat: real): (r: bool)
    ensures r == gc.land.pointInAnyPolygon(Point(lon, lat))
  {
    gc.land.pointInAnyPolygon(Point(lon, lat))
  }

  /** IsPointInIce: the ice index's answer for (lon, lat). */
  function IsPointInIce(gc: GeoCoverage, lon: real, lat: real): (r: bool)
    ensures r == gc.ice.pointInAnyPolygon(Point(lon, lat))
  {
    gc.ice.pointInAnyPolygon(Point(lon, lat))
  }

  /** HasBoundsAnyFixFactors: whether the outer high-fix index meets the bound. */
  function HasBoundsAnyFixFactors(gc: GeoCoverage, b: Bound): (r: bool)
    ensures r == gc.highFixOuter.boundsInAnyPolygon(b)
  {
    gc.highFixOuter.boundsInAnyPolygon(b)
  }

  /** DesertFactorForPoint: the distance factor of the (inner, outer) desert pair. */
  function DesertFactorForPoint(gc: GeoCoverage, lon: real, lat: real): (f: Factor)
    ensures |gc.outerDeserts.pointInPolygons(Point(lon, lat))| == 0 ==> f == Value(0.0)
    ensures (|gc.outerDeserts.pointInPolygons(Point(lon, lat))| > 0 &&
             |gc.innerDeserts.pointInPolygons(Point(lon, lat))| > 0) ==> f == Value(1.0)
    ensures f.Value? ==> 0.0 <= f.v <= 1.0
  {
    DistanceFactor(Point(lon, lat), gc.innerDeserts, gc.outerDeserts, gc.distance)
  }

  /** HighFixFactorForPoint: the distance factor of the (inner, outer) high-fix pair. */
  function HighFixFactorForPoint(gc: GeoCoverage, lon: real, lat: real): (f: Factor)
    ensures |gc.highFixOuter.pointInPolygons(Point(lon, lat))| == 0 ==> f == Value(0.0)
    ensures (|gc.highFixOuter.pointInPolygons(Point(lon, lat))| > 0 &&
             |gc.highFixInner.pointInPolygons(Point(lon, lat))| > 0) ==> f == Value(1.0)
    ensures f.Value? ==> 0.0 <= f.v <= 1.0
  {
    DistanceFactor(Point(lon, lat), gc.highFixInner, gc.highFixOuter, gc.distance)
  }

  /** Each factor query reads only its own pair of indexes: the other four can be anything. */
  lemma FactorQueriesUseTheirOwnPair(gc: GeoCoverage, gc': GeoCoverage, lon: real, lat: real)
    requires gc.distance == gc'.distance
    ensures gc.innerDeserts == gc'.innerDeserts && gc.outerDeserts == gc'.outerDeserts ==>
      DesertFactorForPoint(gc, lon, lat) == DesertFactorForPoint(gc', lon, lat)
    ensures gc.highFixInner == gc'.highFixInner && gc.highFixOuter == gc'.highFixOuter ==>
      HighFixFactorForPoint(gc, lon, lat) == HighFixFactorForPoint(gc', lon, lat)
  {
  }
}
