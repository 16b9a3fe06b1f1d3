/**
 * terrain/geojson.go, the GeoJSON snapshot of terrain.GeoCoverage: the id
 * scheme its loadIndexer gives the polygons of a feature collection, and its
 * DesertFactorForPoint, which differs from terrain/index.go's rule only in
 * panicking (nil dereference) instead of exiting when the outer polygon is
 * missing.
 */
module TerrainGeojson {
  import opened Geo
  import opened Decimal
  import opened Outcomes
  import opened TrianglePolygon
  import opened Spatial
  import opened TerrainIndex

  /** A parsed feature's geometry, as far as loadIndexer tells kinds apart. */
  datatype FeatureGeometry = PolygonGeometry(polygon: Polygon) | MultiPolygonGeometry(parts: seq<Polygon>) | OtherGeometry

  /** The ids "i" (fmt "%d") and "i-j" ("%d-%d"). */
  function FeatureId(i: nat): string {
    NatToString(i)
  }

  function PartId(i: nat, j: nat): string {
    NatToString(i) + "-" + NatToString(j)
  }

  /** The feature index an id was built from: the value of its leading digits. */
  function FeatureOf(id: string): nat {
    DigitsValue(DigitPrefix(id))
  }

  lemma FeatureOfFeatureId(i: nat)
    ensures FeatureOf(FeatureId(i)) == i
  {
    DigitPrefixOf(NatToString(i), []);
    assert NatToString(i) + [] == NatToString(i);
    NatToStringValue(i);
  }

  lemma FeatureOfPartId(i: nat, j: nat)
    ensures FeatureOf(PartId(i, j)) == i
  {
    assert PartId(i, j) == NatToString(i) + ("-" + NatToString(j));
    DigitPrefixOf(NatToString(i), "-" + NatToString(j));
    NatToStringValue(i);
  }

  /** Two parts of one MultiPolygon get different ids. */
  lemma PartIdsDistinct(i: nat, j: nat, j': nat)
    requires j != j'
    ensures PartId(i, j) != PartId(i, j')
  {
    var a := NatToString(i);
    assert PartId(i, j)[|a| + 1..] == NatToString(j);
    assert PartId(i, j')[|a| + 1..] == NatToString(j');
    if NatToString(j) == NatToString(j') {
      NatToStringInjective(j, j');
    }
  }

  /** A Polygon feature's id contains no '-', a MultiPolygon part's does. */
  lemma FeatureIdIsNoPartId(i: nat, i': nat, j: nat)
    ensures FeatureId(i) != PartId(i', j)
  {
    var a := NatToString(i');
    assert PartId(i', j)[|a|] == '-';
    assert !IsDigit('-');
  }

  /** The parts of MultiPolygon feature i under their ids "i-j". */
  function PartShapes(i: nat, parts: seq<Polygon>): (shapes: seq<Shape>)
    ensures |shapes| == |parts|
    ensures forall j :: 0 <= j < |shapes| ==> shapes[j] == Shape(PartId(i, j), parts[j])
  {
    seq(|parts|, j requires 0 <= j < |parts| => Shape(PartId(i, j), parts[j]))
  }

  /** The polygons feature i contributes, with their ids: one, one per part, or none. */
  function PartsOf(i: nat, g: FeatureGeometry): (shapes: seq<Shape>)
    ensures g.PolygonGeometry? ==> shapes == [Shape(FeatureId(i), g.polygon)]
    ensures g.MultiPolygonGeometry? ==> |shapes| == |g.parts|
    ensures g.MultiPolygonGeometry? ==> forall j :: 0 <= j < |shapes| ==> shapes[j] == Shape(PartId(i, j), g.parts[j])
    ensures g.OtherGeometry? ==> shapes == []
    ensures forall k :: 0 <= k < |shapes| ==> FeatureOf(shapes[k].id) == i
    ensures forall k, k' :: 0 <= k < k' < |shapes| ==> shapes[k].id != shapes[k'].id
  {
    match g
    case PolygonGeometry(poly) =>
      FeatureOfFeatureId(i);
      [Shape(FeatureId(i), poly)]
    case MultiPolygonGeometry(parts) =>
      var shapes := PartShapes(i, parts);
      assert forall k :: 0 <= k < |shapes| ==> FeatureOf(shapes[k].id) == i by {
        forall k | 0 <= k < |shapes| {
          FeatureOfPartId(i, k);
        }
      }
      assert forall k, k' :: 0 <= k < k' < |shapes| ==> shapes[k].id != shapes[k'].id by {
        forall k, k' | 0 <= k < k' < |shapes| {
          PartIdsDistinct(i, k, k');
        }
      }
      shapes
    case OtherGeometry => []
  }

  /**
   * The insertions loadIndexer makes, in feature order: every id names the
   * feature it came from, and no id is used twice.
   */
  function InsertionPlan(features: seq<FeatureGeometry>): (plan: seq<Shape>)
    ensures forall k :: 0 <= k < |plan| ==> FeatureOf(plan[k].id) < |features|
    ensures forall k, k' :: 0 <= k < k' < |plan| ==> plan[k].id != plan[k'].id
  {
    if |features| == 0 then []
    else
      var init := InsertionPlan(features[..|features| - 1]);
      var last := PartsOf(|features| - 1, features[|features| - 1]);
      assert forall k :: 0 <= k < |init| ==> FeatureOf(init[k].id) < |features| - 1;
      init + last
  }

  /** The index as values: its stored triangles, its id table and its bounds. */
  datatype IndexState = IndexState(entries: seq<Entry>, polys: map<string, Shape>, bounds: Bound)

  /** The state after Insert(p): grown on a usable triangulation, unchanged on earcut's error. */
  function AfterInsert(s: IndexState, p: Shape, earcut: Earcut): (s': IndexState)
    requires |p.rings| > 0
    ensures TriangulationOf(p.rings, earcut).Triangles? ==> p.id in s'.polys && s'.polys[p.id] == p
    ensures !TriangulationOf(p.rings, earcut).Triangles? ==> s' == s
    ensures s.polys.Keys <= s'.polys.Keys
  {
    var t := TriangulationOf(p.rings, earcut);
    if t.Triangles? then
      IndexState(s.entries + EntriesOf(t.triangles, p), s.polys[p.id := p], Union(s.bounds, PolygonBound(p.rings)))
    else s
  }

  /**
   * Inserting p crashes the loader: a polygon without rings makes
   * convertPolygonToEarcut index poly[0], and FromPolygon can index past
   * earcut's output.
   */
  predicate Panics(p: Shape, earcut: Earcut) {
    |p.rings| == 0 || TriangulationOf(p.rings, earcut).IndexPanic?
  }

  /** The state after every insertion of the plan, none of which panics. */
  function AfterInserts(s: IndexState, plan: seq<Shape>, earcut: Earcut): (s': IndexState)
    requires forall k :: 0 <= k < |plan| ==> !Panics(plan[k], earcut)
    ensures forall k :: 0 <= k < |plan| && !Panics(plan[k], earcut) && TriangulationOf(plan[k].rings, earcut).Triangles? ==>
      plan[k].id in s'.polys
  {
    if |plan| == 0 then s
    else
      var init := AfterInserts(s, plan[..|plan| - 1], earcut);
      assert forall k :: 0 <= k < |plan| - 1 ==> plan[..|plan| - 1][k] == plan[k];
      assert !Panics(plan[|plan| - 1], earcut);
      AfterInsert(init, plan[|plan| - 1], earcut)
  }

  /** The plan of a prefix of the collection is a prefix of the collection's plan. */
  lemma {:induction false} PlanPrefix(features: seq<FeatureGeometry>, i: nat)
    requires i <= |features|
    ensures InsertionPlan(features[..i]) <= InsertionPlan(features)
    decreases |features| - i
  {
    if i < |features| {
      var init := features[..|features| - 1];
      assert init[..i] == features[..i];
      PlanPrefix(init, i);
    } else {
      assert features[..i] == features;
    }
  }

  lemma PlanStep(features: seq<FeatureGeometry>, i: nat)
    requires i < |features|
    ensures InsertionPlan(features[..i + 1]) == InsertionPlan(features[..i]) + PartsOf(i, features[i])
  {
    assert features[..i + 1][..i] == features[..i];
  }

  lemma TakeOneMore(s: seq<Shape>, j: nat)
    requires j < |s|
    ensures s[..j + 1] == s[..j] + [s[j]]
  {
  }

  function StateOf(idx: Index): IndexState
    reads idx
  {
    IndexState(idx.entries, idx.polys, idx.bounds)
  }

  /** No insertion of the sequence panics. */
  predicate NonePanics(plan: seq<Shape>, earcut: Earcut) {
    forall k :: 0 <= k < |plan| ==> !Panics(plan[k], earcut)
  }

  lemma NonePanicsSuffix(done: seq<Shape>, rest: seq<Shape>, earcut: Earcut)
    requires NonePanics(done + rest, earcut)
    ensures NonePanics(rest, earcut)
  {
    assert forall k :: 0 <= k < |rest| ==> rest[k] == (done + rest)[|done| + k];
  }

  lemma PanicAt(plan: seq<Shape>, k: nat, earcut: Earcut)
    requires k < |plan| && Panics(plan[k], earcut)
    ensures !NonePanics(plan, earcut)
  {
  }

  /** One insertion of loadIndexer's loop, its error dropped. */
  method InsertStep(idx: Index, p: Shape, earcut: Earcut, ghost done: seq<Shape>)
    requires NonePanics(done, earcut) && !Panics(p, earcut)
    requires StateOf(idx) == AfterInserts(IndexState([], map[], InitialBound), done, earcut)
    modifies idx
    ensures NonePanics(done + [p], earcut)
    ensures StateOf(idx) == AfterInserts(IndexState([], map[], InitialBound), done + [p], earcut)
  {
    assert (done + [p])[..|done|] == done;
    var _ := idx.Insert(p, earcut);
  }

  /** The body of loadIndexer's loop for feature i: its polygon, or its parts in order. */
  method InsertFeature(idx: Index, i: nat, g: FeatureGeometry, earcut: Earcut, ghost done: seq<Shape>)
    returns (panicked: bool)
    requires NonePanics(done, earcut)
    requires StateOf(idx) == AfterInserts(IndexState([], map[], InitialBound), done, earcut)
    modifies idx
    ensures panicked <==> !NonePanics(PartsOf(i, g), earcut)
    ensures !panicked ==> NonePanics(done + PartsOf(i, g), earcut)
    ensures !panicked ==> StateOf(idx) == AfterInserts(IndexState([], map[], InitialBound), done + PartsOf(i, g), earcut)
  {
    ghost var parts := PartsOf(i, g);
    panicked := false;
    if g.PolygonGeometry? {
      var p := Shape(FeatureId(i), g.polygon);
      if Panics(p, earcut) {
        assert parts[0] == p;
        return true;
      }
      InsertStep(idx, p, earcut, done);
      assert parts == [p];
    }
    if g.OtherGeometry? {
      assert done + parts == done;
    }
    if g.MultiPolygonGeometry? {
      assert parts == PartShapes(i, g.parts);
      panicked := InsertParts(idx, i, g.parts, earcut, done);
    }
  }

  /** loadIndexer's inner loop over the parts of MultiPolygon feature i. */
  method InsertParts(idx: Index, i: nat, polys: seq<Polygon>, earcut: Earcut, ghost done: seq<Shape>)
    returns (panicked: bool)
    requires NonePanics(done, earcut)
    requires StateOf(idx) == AfterInserts(IndexState([], map[], InitialBound), done, earcut)
    modifies idx
    ensures panicked <==> !NonePanics(PartShapes(i, polys), earcut)
    ensures !panicked ==> NonePanics(done + PartShapes(i, polys), earcut)
    ensures !panicked ==>
      StateOf(idx) == AfterInserts(IndexState([], map[], InitialBound), done + PartShapes(i, polys), earcut)
  {
    ghost var parts := PartShapes(i, polys);
    var j := 0;
    ghost var cur := done;
    while j < |polys|
      invariant 0 <= j <= |polys|
      invariant cur == done + parts[..j]
      invariant NonePanics(cur, earcut)
      invariant StateOf(idx) == AfterInserts(IndexState([], map[], InitialBound), cur, earcut)
    {
      var p := Shape(PartId(i, j), polys[j]);
      assert parts[j] == p;
      if Panics(p, earcut) {
        PanicAt(parts, j, earcut);
        return true;
      }
      InsertStep(idx, p, earcut, cur);
      TakeOneMore(parts, j);
      assert (done + parts[..j]) + [p] == done + (parts[..j] + [p]);
      cur := cur + [p];
      j := j + 1;
    }
    assert parts[..|polys|] == parts;
    NonePanicsSuffix(done, parts, earcut);
    return false;
  }

  /**
   * loadIndexer after the file is read and parsed: each Polygon feature and
   * each part of a MultiPolygon feature is inserted in order, under the ids
   * of InsertionPlan; insertion errors are dropped. `panicked` reports the
   * crash of an insertion that panics, after which nothing more happens.
   */
  method LoadIndexer(features: seq<FeatureGeometry>, earcut: Earcut) returns (idx: Index, panicked: bool)
    ensures fresh(idx)
    ensures panicked <==> !NonePanics(InsertionPlan(features), earcut)
    ensures !panicked ==> StateOf(idx) == AfterInserts(IndexState([], map[], InitialBound), InsertionPlan(features), earcut)
  {
    idx := new Index.New();
    panicked := InsertFeatures(idx, features, earcut);
  }

  /** loadIndexer's loop over the features, on an index that starts empty. */
  method InsertFeatures(idx: Index, features: seq<FeatureGeometry>, earcut: Earcut) returns (panicked: bool)
    requires StateOf(idx) == IndexState([], map[], InitialBound)
    modifies idx
    ensures panicked <==> !NonePanics(InsertionPlan(features), earcut)
    ensures !panicked ==> StateOf(idx) == AfterInserts(IndexState([], map[], InitialBound), InsertionPlan(features), earcut)
  {
    panicked := false;
    ghost var done: seq<Shape> := [];
    assert features[..0] == [];
    var i := 0;
    while i < |features|
      invariant 0 <= i <= |features|
      invariant done == InsertionPlan(features[..i])
      invariant NonePanics(done, earcut)
      invariant StateOf(idx) == AfterInserts(IndexState([], map[], InitialBound), done, earcut)
    {
      PlanStep(features, i);
      panicked := InsertFeature(idx, i, features[i], earcut, done);
      if panicked {
        PlanPrefix(features, i + 1);
        PanicInPrefix(done, PartsOf(i, features[i]), InsertionPlan(features), earcut);
        return;
      }
      done := done + PartsOf(i, features[i]);
      i := i + 1;
    }
    assert features[..|features|] == features;
  }

  /** A panicking insertion in a later part of a prefix of the plan is one of the plan's. */
  lemma PanicInPrefix(done: seq<Shape>, parts: seq<Shape>, plan: seq<Shape>, earcut: Earcut)
    requires done + parts <= plan && !NonePanics(parts, earcut)
    ensures !NonePanics(plan, earcut)
  {
    var k :| 0 <= k < |parts| && Panics(parts[k], earcut);
    assert plan[|done| + k] == (done + parts)[|done| + k];
  }

  /** This file's GeoCoverage: ice, lakes and the two desert indexes. */
  datatype GeojsonCoverage = GeojsonCoverage(ice: Indexer, lakes: Indexer, innerDeserts: Indexer, outerDeserts: Indexer, distance: Distance)

  /** IsPointInIce: the ice index's answer for (lon, lat). */
  function IsPointInIce(gc: GeojsonCoverage, lon: real, lat: real): (r: bool)
    ensures r == gc.ice.pointInAnyPolygon(Point(lon, lat))
  {
    gc.ice.pointInAnyPolygon(Point(lon, lat))
  }

  /** IsPointInLakes: the lakes index's answer for (lon, lat). */
  function IsPointInLakes(gc: GeojsonCoverage, lon: real, lat: real): (r: bool)
    ensures r == gc.lakes.pointInAnyPolygon(Point(lon, lat))
  {
    gc.lakes.pointInAnyPolygon(Point(lon, lat))
  }

  /**
   * DesertFactorForPoint: terrain/index.go's distance factor, except that
   * a missing outer polygon is dereferenced (a panic) instead of ending the
   * process through log.Fatalf.
   */
  method DesertFactorForPoint(gc: GeojsonCoverage, lon: real, lat: real) returns (f: Factor)
    ensures DistanceFactor(Point(lon, lat), gc.innerDeserts, gc.outerDeserts, gc.distance) == Fatal ==> f == Panic
    ensures DistanceFactor(Point(lon, lat), gc.innerDeserts, gc.outerDeserts, gc.distance) != Fatal ==>
      f == DistanceFactor(Point(lon, lat), gc.innerDeserts, gc.outerDeserts, gc.distance)
    ensures f != Fatal
  {
    var point := Point(lon, lat);
    var inner, outer, distance := gc.innerDeserts, gc.outerDeserts, gc.distance;
    var outerPolys := outer.pointInPolygons(point);
    if |outerPolys| == 0 {
      return Value(0.0);
    }
    var innerPolys := inner.pointInPolygons(point);
    if |innerPolys| > 0 {
      return Value(1.0);
    }

    var distancePolygons := new Option<Shape>[|outerPolys|];
    var i := 0;
    while i < |outerPolys|
      invariant 0 <= i <= |outerPolys|
      invariant forall k :: 0 <= k < i ==> distancePolygons[k] == inner.polygonByID(outerPolys[k].id)
    {
      distancePolygons[i] := inner.polygonByID(outerPolys[i].id);
      i := i + 1;
    }
    ghost var dps := InnerByOuterIds(inner, outerPolys);
    assert distancePolygons[..] == dps;

    if distancePolygons[0].None? {
      return Panic;
    }
    var idWithDistanceToInner := distancePolygons[0].value.id;
    var distanceToInner := distance(point, distancePolygons[0].value);
    ghost var best := 0;
    assert dps[..1] == [dps[0]];
    if |outerPolys| > 1 {
      i := 1;
      while i < |outerPolys|
        invariant 1 <= i <= |outerPolys|
        invariant AllFound(dps[..i]) && best == NearestIndex(point, dps[..i], distance)
        invariant idWithDistanceToInner == dps[best].value.id
        invariant distanceToInner == distance(point, dps[best].value)
      {
        assert dps[..i + 1][..i] == dps[..i];
        if distancePolygons[i].None? {
          return Panic;
        }
        var d := distance(point, distancePolygons[i].value);
        if d < distanceToInner {
          distanceToInner := d;
          idWithDistanceToInner := distancePolygons[i].value.id;
          best := i;
        }
        i := i + 1;
      }
    }
    assert dps[..|outerPolys|] == dps;

    var outerDistancePoly := outer.polygonByID(idWithDistanceToInner);
    if outerDistancePoly.None? {
      return Panic;
    }
    var distanceToOuter := distance(point, outerDistancePoly.value);
    return Ratio(distanceToInner, distanceToOuter);
  }
}
