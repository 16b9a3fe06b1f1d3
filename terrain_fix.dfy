/**
 * fixElevationMap (terrain-fix.go): inside the high-fix zones, sea cells of
 * a tile are lowered toward a fixed depth, the full depth deep inside a zone
 * and a blend with the original value near its outer edge.
 */
module TerrainFix {
  import opened Elevation
  import opened TileToGeo
  import opened TerrainIndex

  const FixedElevation: real := -220.0
  const MinHeight: real := -24.0

  /** The depth a cell with high-fix factor f is moved to: MinHeight at 0, FixedElevation at 1. */
  function TargetElevation(f: real): (t: real)
    ensures 0.0 <= f <= 1.0 ==> FixedElevation <= t <= MinHeight
    ensures f == 0.0 ==> t == MinHeight
    ensures f == 1.0 ==> t == FixedElevation
  {
    MinHeight + (FixedElevation - MinHeight) * f
  }

  /** What happens to one cell: left alone, overwritten, or the run ends on a factor that is not a number. */
  datatype CellFix = Keep | Write(elevation: real) | Abort(factor: Factor)

  /**
   * The decision for a cell of elevation `cell`: cells above 20 m or on land
   * are skipped, as are cells with factor 0; a factor up to 0.1 blends the
   * target with the cell in proportion f / 0.1; a larger one writes the target.
   */
  function FixCell(cell: real, inLand: bool, factor: Factor): (c: CellFix)
    ensures cell > 20.0 || inLand ==> c == Keep
    ensures !(cell > 20.0 || inLand) && factor == Value(0.0) ==> c == Keep
    ensures !(cell > 20.0 || inLand) && !factor.Value? ==> c == Abort(factor)
    ensures !(cell > 20.0 || inLand) && factor.Value? && factor.v > 0.1 ==> c == Write(TargetElevation(factor.v))
  {
    if cell > 20.0 || inLand then Keep
    else match factor
      case Value(f) =>
        if f == 0.0 then Keep
        else if f <= 0.1 then
          var untilEdge := f / 0.1;
          Write(TargetElevation(f) * untilEdge + cell * (1.0 - untilEdge))
        else Write(TargetElevation(f))
      case _ => Abort(factor)
  }

  /** A blended cell lies between its old elevation and the target. */
  lemma BlendBetweenCellAndTarget(cell: real, f: real)
    requires cell <= 20.0 && 0.0 < f <= 0.1
    ensures FixCell(cell, false, Value(f)).Write?
    ensures var e := FixCell(cell, false, Value(f)).elevation;
      var t := TargetElevation(f);
      (cell <= t ==> cell <= e <= t) && (t <= cell ==> t <= e <= cell)
  {
    var u := f / 0.1;
    assert u * 0.1 == f;
    assert 0.0 < u <= 1.0;
    var t := TargetElevation(f);
    var e := t * u + cell * (1.0 - u);
    assert e - cell == (t - cell) * u;
    assert t - e == (t - cell) * (1.0 - u);
    if cell <= t {
      NonNegProduct(t - cell, u);
      NonNegProduct(t - cell, 1.0 - u);
    } else {
      NonNegProduct(cell - t, u);
      NonNegProduct(cell - t, 1.0 - u);
    }
  }

  lemma NonNegProduct(a: real, b: real)
    requires a >= 0.0 && b >= 0.0
    ensures a * b >= 0.0
  {
  }

  /** At factor 0.1 the blend has reached the target: the two branches meet. */
  lemma BlendMeetsTargetAtEdge(cell: real)
    requires cell <= 20.0
    ensures FixCell(cell, false, Value(0.1)) == Write(TargetElevation(0.1))
  {
    assert 0.1 / 0.1 == 1.0;
  }

  /** Every written depth lies between the cell and FixedElevation, and never above MinHeight unless the cell was. */
  lemma WrittenDepthBounded(cell: real, inLand: bool, f: real)
    requires 0.0 <= f <= 1.0
    requires FixCell(cell, inLand, Value(f)).Write?
    ensures var e := FixCell(cell, inLand, Value(f)).elevation;
      FixedElevation <= e || cell <= e
    ensures var e := FixCell(cell, inLand, Value(f)).elevation;
      e <= MinHeight || e <= cell
  {
    if f <= 0.1 {
      BlendBetweenCellAndTarget(cell, f);
    }
  }

  /** The new value of a cell after its decision. */
  function Applied(cell: real, c: CellFix): (e: real)
    ensures c.Write? ==> e == c.elevation
    ensures !c.Write? ==> e == cell
  {
    if c.Write? then c.elevation else cell
  }

  predicate InTile(d: seq<seq<real>>, tb: TileBounds, x: int, y: int) {
    0 <= y < |d| && 0 <= x < |d[y]| && x < |tb.xLookup| && y < |tb.yLookup|
  }

  /** The decision for cell (x, y) of grid d, at the pixel's longitude and latitude. */
  function FixAt(d: seq<seq<real>>, tb: TileBounds, gc: GeoCoverage, x: int, y: int): CellFix
    requires InTile(d, tb, x, y)
  {
    var lat := GetPixelLat(tb, y);
    var lon := GetPixelLng(tb, x);
    FixCell(d[y][x], IsPointInLand(gc, lon, lat), HighFixFactorForPoint(gc, lon, lat))
  }

  /** Cell (x, y) comes before (cx, cy) in row-major order. */
  predicate Before(x: int, y: int, cx: int, cy: int) {
    y < cy || (y == cy && x < cx)
  }

  /** Cells before (cx, cy) hold their fixed value, the others their value in d0. */
  ghost predicate FixedUpTo(d0: seq<seq<real>>, d: seq<seq<real>>, tb: TileBounds, gc: GeoCoverage, cx: int, cy: int)
  {
    |d| == |d0| && (forall y :: 0 <= y < |d| ==> |d[y]| == |d0[y]|) &&
    forall y, x :: InTile(d0, tb, x, y) ==>
      d[y][x] == (if Before(x, y, cx, cy) then Applied(d0[y][x], FixAt(d0, tb, gc, x, y)) else d0[y][x])
  }

  /** No cell before (cx, cy) ends the run. */
  ghost predicate NoAbortUpTo(d0: seq<seq<real>>, tb: TileBounds, gc: GeoCoverage, cx: int, cy: int) {
    forall y, x :: InTile(d0, tb, x, y) && Before(x, y, cx, cy) ==> !FixAt(d0, tb, gc, x, y).Abort?
  }

  /** The whole tile is skipped: too deep a zoom, or no high-fix zone meets its bound. */
  predicate Skipped(tb: TileBounds, gc: GeoCoverage) {
    tb.zoom > 10 || !HasBoundsAnyFixFactors(gc, TileBound(tb))
  }

  /** Deciding cell (x, y) moves both frontiers one cell on. */
  lemma StepFixed(d0: seq<seq<real>>, before: seq<seq<real>>, after: seq<seq<real>>, tb: TileBounds, gc: GeoCoverage, x: int, y: int)
    requires InTile(d0, tb, x, y) && !FixAt(d0, tb, gc, x, y).Abort?
    requires FixedUpTo(d0, before, tb, gc, x, y) && NoAbortUpTo(d0, tb, gc, x, y)
    requires FixAt(d0, tb, gc, x, y).Write? ==> after == before[y := before[y][x := FixAt(d0, tb, gc, x, y).elevation]]
    requires !FixAt(d0, tb, gc, x, y).Write? ==> after == before
    ensures FixedUpTo(d0, after, tb, gc, x + 1, y) && NoAbortUpTo(d0, tb, gc, x + 1, y)
  {
  }

  /** The end of row y is the start of row y + 1. */
  lemma RowDone(d0: seq<seq<real>>, d: seq<seq<real>>, tb: TileBounds, gc: GeoCoverage, n: int, y: int)
    requires forall y' :: 0 <= y' < |d0| ==> |d0[y']| == n
    requires FixedUpTo(d0, d, tb, gc, n, y) && NoAbortUpTo(d0, tb, gc, n, y)
    ensures FixedUpTo(d0, d, tb, gc, 0, y + 1) && NoAbortUpTo(d0, tb, gc, 0, y + 1)
  {
    assert forall y', x' :: InTile(d0, tb, x', y') ==> (Before(x', y', n, y) <==> Before(x', y', 0, y + 1));
  }

  /**
   * fixElevationMap: unless the tile is skipped, every cell gets its
   * decision in row-major order. `aborted` reports that a cell's factor was
   * not a number (NaN, or a panic or fatal exit in the lookup); the run then
   * ends at that cell.
   */
  method FixElevationMap(em: ElevationMap, tb: TileBounds, gc: GeoCoverage) returns (aborted: bool)
    requires em.Valid() && em.tileSize <= |tb.xLookup| && em.tileSize <= |tb.yLookup|
    modifies em
    ensures em.Valid() && em.tileSize == old(em.tileSize)
    ensures Skipped(tb, gc) ==> !aborted && em.data == old(em.data)
    ensures !Skipped(tb, gc) ==>
      (aborted <==> exists y, x :: InTile(old(em.data), tb, x, y) && FixAt(old(em.data), tb, gc, x, y).Abort?)
    ensures !Skipped(tb, gc) && !aborted ==> forall y, x :: InTile(old(em.data), tb, x, y) ==>
      em.data[y][x] == Applied(old(em.data)[y][x], FixAt(old(em.data), tb, gc, x, y))
  {
    aborted := false;
    if tb.zoom > 10 {
      return;
    }
    var hasFixFactors := HasBoundsAnyFixFactors(gc, TileBound(tb));
    if !hasFixFactors {
      return;
    }
    ghost var d0 := em.data;
    var n := |em.data|;
    var y := 0;
    while y < n
      invariant 0 <= y <= n
      invariant em.Valid() && em.tileSize == old(em.tileSize) && |em.data| == n
      invariant FixedUpTo(d0, em.data, tb, gc, 0, y) && NoAbortUpTo(d0, tb, gc, 0, y)
    {
      var lat := GetPixelLat(tb, y);
      var x := 0;
      while x < n
        invariant 0 <= x <= n
        invariant em.Valid() && em.tileSize == old(em.tileSize) && |em.data| == n
        invariant FixedUpTo(d0, em.data, tb, gc, x, y) && NoAbortUpTo(d0, tb, gc, x, y)
      {
        var lon := GetPixelLng(tb, x);
        var cell := em.data[y][x];
        assert InTile(d0, tb, x, y) && cell == d0[y][x];
        var fix := FixCell(cell, IsPointInLand(gc, lon, lat), HighFixFactorForPoint(gc, lon, lat));
        assert fix == FixAt(d0, tb, gc, x, y);
        if fix.Abort? {
          return true;
        }
        ghost var before := em.data;
        if fix.Write? {
          em.ModifyElevation(x, y, fix.elevation);
        }
        StepFixed(d0, before, em.data, tb, gc, x, y);
        x := x + 1;
      }
      RowDone(d0, em.data, tb, gc, n, y);
      y := y + 1;
    }
    assert forall y', x' :: InTile(d0, tb, x', y') ==> Before(x', y', 0, n);
  }
}
