/**
 * PixelCell (cell.go): one pixel of a tile with its elevation, position and
 * the coverage it consults, and the per-cell classifications the colour
 * providers read.
 */
module Cell {
  import opened Numeric
  import opened Elevation
  import opened TileToGeo
  import opened TerrainIndex

  const PolarStartLatitude: real := 64.0
  const PolarAbsoluteLatitude: real := 70.0
  const PolLatitude: real := 85.05
  const WarmZoneLatitude: real := 28.0
  const EarthTilt: real := 6.0

  /** (|lat| - start) / width, clamped to [0, 1]: a ramp from 0 at `start` to 1 at `start + width`. */
  function Ramp(absLat: real, start: real, width: real): (r: real)
    requires width > 0.0
    ensures 0.0 <= r <= 1.0
    ensures absLat <= start ==> r == 0.0
    ensures absLat >= start + width ==> r == 1.0
  {
    var q := (absLat - start) / width;
    assert q * width == absLat - start;
    Min(Max(q, 0.0), 1.0)
  }

  lemma RampMonotone(a: real, b: real, start: real, width: real)
    requires width > 0.0 && a <= b
    ensures Ramp(a, start, width) <= Ramp(b, start, width)
  {
    var qa, qb := (a - start) / width, (b - start) / width;
    assert qa * width == a - start && qb * width == b - start;
    assert (qa - qb) * width == a - b;
    if qa > qb {
      PositiveProduct(qa - qb, width);
      assert false;
    }
    assert Ramp(a, start, width) == Min(Max(qa, 0.0), 1.0);
    assert Ramp(b, start, width) == Min(Max(qb, 0.0), 1.0);
  }

  lemma PositiveProduct(a: real, b: real)
    requires a > 0.0 && b > 0.0
    ensures a * b > 0.0
  {
  }

  datatype PixelCell = PixelCell(elevation: real, latitude: real, longitude: real, geoCoverage: GeoCoverage)
  {
    /** IsLand: never below -420 m, always above 100 m, otherwise the land index decides. */
    function IsLand(): (r: bool)
      ensures elevation < -420.0 ==> !r
      ensures elevation > 100.0 ==> r
      ensures -420.0 <= elevation <= 100.0 ==> r == IsPointInLand(geoCoverage, longitude, latitude)
    {
      if elevation < -420.0 then false
      else elevation > 100.0 || IsPointInLand(geoCoverage, longitude, latitude)
    }

    /** IsIce: never between 35 degrees south and 23 degrees north, otherwise the ice index decides. */
    function IsIce(): (r: bool)
      ensures -35.0 < latitude < 23.0 ==> !r
      ensures !(-35.0 < latitude < 23.0) ==> r == IsPointInIce(geoCoverage, longitude, latitude)
    {
      if latitude < 23.0 && latitude > -35.0 then false
      else IsPointInIce(geoCoverage, longitude, latitude)
    }

    /** DesertFactor: the coverage's desert factor at the cell's position. */
    function DesertFactor(): (f: Factor)
      ensures f == DesertFactorForPoint(geoCoverage, longitude, latitude)
      ensures f.Value? ==> 0.0 <= f.v <= 1.0
    {
      DesertFactorForPoint(geoCoverage, longitude, latitude)
    }

    /**
     * PolarFactor: 0 between 58 degrees south and 70 degrees north; toward
     * the poles it ramps to 1 over 6 degrees (reached at 64 S and 76 N).
     */
    function PolarFactor(): (f: real)
      ensures 0.0 <= f <= 1.0
      ensures -(PolarStartLatitude - EarthTilt) <= latitude <= PolarStartLatitude + EarthTilt ==> f == 0.0
      ensures latitude <= -(PolarAbsoluteLatitude - EarthTilt) || latitude >= PolarAbsoluteLatitude + EarthTilt ==> f == 1.0
    {
      var absLat := Abs(latitude);
      if latitude < -1.0 * (PolarStartLatitude - EarthTilt) then
        Ramp(absLat, PolarStartLatitude - EarthTilt, (PolarAbsoluteLatitude - EarthTilt) - (PolarStartLatitude - EarthTilt))
      else if latitude > PolarStartLatitude + EarthTilt then
        Ramp(absLat, PolarStartLatitude + EarthTilt, (PolarAbsoluteLatitude + EarthTilt) - (PolarStartLatitude + EarthTilt))
      else 0.0
    }

    /** AquatorFactor: |lat| / 70 clamped to [0, 1]. */
    function AquatorFactor(): (f: real)
      ensures 0.0 <= f <= 1.0
      ensures Abs(latitude) >= PolarAbsoluteLatitude ==> f == 1.0
      ensures f * PolarAbsoluteLatitude == Min(Abs(latitude), PolarAbsoluteLatitude)
    {
      var q := Abs(latitude) / PolarAbsoluteLatitude;
      assert q * PolarAbsoluteLatitude == Abs(latitude);
      Max(0.0, Min(1.0, q))
    }
  }

  /** Moving poleward never lowers the polar factor, in either hemisphere. */
  lemma PolarFactorMonotone(c: PixelCell, c': PixelCell)
    requires (0.0 <= c.latitude <= c'.latitude) || (c'.latitude <= c.latitude <= 0.0)
    ensures c.PolarFactor() <= c'.PolarFactor()
  {
    RampMonotone(Abs(c.latitude), Abs(c'.latitude), PolarStartLatitude - EarthTilt, 6.0);
    RampMonotone(Abs(c.latitude), Abs(c'.latitude), PolarStartLatitude + EarthTilt, 6.0);
  }

  /** The aquator factor depends on |latitude| alone. */
  lemma AquatorFactorSymmetric(c: PixelCell)
    ensures c.AquatorFactor() == c.(latitude := -c.latitude).AquatorFactor()
  {
  }

  /** The cell of pixel (x, y): the map's elevation there and the pixel's latitude and longitude. */
  function CellAt(em: ElevationMap, tb: TileBounds, gc: GeoCoverage, x: int, y: int): PixelCell
    requires em.Valid() && 0 <= x < |tb.xLookup| && 0 <= y < |tb.yLookup|
    reads em
  {
    PixelCell(em.GetElevation(x, y), GetPixelLat(tb, y), GetPixelLng(tb, x), gc)
  }

  /** GetCellsForTile: a TileSize x TileSize grid of cells, indexed [y][x]; it never returns an error. */
  method GetCellsForTile(em: ElevationMap, tb: TileBounds, gc: GeoCoverage) returns (cells: seq<seq<PixelCell>>)
    requires em.Valid() && em.tileSize <= |tb.xLookup| && em.tileSize <= |tb.yLookup|
    ensures |cells| == em.tileSize
    ensures forall y :: 0 <= y < |cells| ==> |cells[y]| == em.tileSize
    ensures forall y, x :: 0 <= y < em.tileSize && 0 <= x < em.tileSize ==>
      cells[y][x] == CellAt(em, tb, gc, x, y) && cells[y][x].elevation == em.data[y][x]
  {
    cells := [];
    var y := 0;
    while y < em.tileSize
      invariant 0 <= y <= em.tileSize && |cells| == y
      invariant forall y' :: 0 <= y' < y ==> |cells[y']| == em.tileSize
      invariant forall y', x :: 0 <= y' < y && 0 <= x < em.tileSize ==> cells[y'][x] == CellAt(em, tb, gc, x, y')
    {
      var row: seq<PixelCell> := [];
      var x := 0;
      while x < em.tileSize
        invariant 0 <= x <= em.tileSize && |row| == x
        invariant forall x' :: 0 <= x' < x ==> row[x'] == CellAt(em, tb, gc, x', y)
      {
        row := row + [PixelCell(em.GetElevation(x, y), GetPixelLat(tb, y), GetPixelLng(tb, x), gc)];
        x := x + 1;
      }
      cells := cells + [row];
      y := y + 1;
    }
  }
}
