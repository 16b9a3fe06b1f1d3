/**
 * buildDesertFactorMatrix (desert.go): the desert factor of every land
 * pixel of a tile below 60 degrees of latitude, 0 elsewhere.
 */
module Desert {
  import opened Numeric
  import opened Elevation
  import opened TileToGeo
  import opened TerrainIndex

  /** The matrix entry of pixel (x, y). */
  function DesertCell(em: ElevationMap, tb: TileBounds, gc: GeoCoverage, x: int, y: int): (f: Factor)
    requires em.Valid() && 0 <= x < |tb.xLookup| && 0 <= y < |tb.yLookup|
    reads em
    ensures Abs(GetPixelLat(tb, y)) > 60.0 ==> f == Value(0.0)
    ensures !IsLand(em.GetElevation(x, y)) ==> f == Value(0.0)
    ensures f.Value? ==> 0.0 <= f.v <= 1.0
  {
    var latitude := GetPixelLat(tb, y);
    if Abs(latitude) > 60.0 || !IsLand(em.GetElevation(x, y)) then Value(0.0)
    else DesertFactorForPoint(gc, GetPixelLng(tb, x), latitude)
  }

  /** A land pixel below 60 degrees gets the coverage's factor at its position. */
  lemma LandBelowSixtyUsesCoverage(em: ElevationMap, tb: TileBounds, gc: GeoCoverage, x: int, y: int)
    requires em.Valid() && 0 <= x < |tb.xLookup| && 0 <= y < |tb.yLookup|
    requires Abs(GetPixelLat(tb, y)) <= 60.0 && IsLand(em.GetElevation(x, y))
    ensures DesertCell(em, tb, gc, x, y) == DesertFactorForPoint(gc, GetPixelLng(tb, x), GetPixelLat(tb, y))
  {
  }

  /**
   * buildDesertFactorMatrix: a TileSize x TileSize matrix indexed [y][x].
   * Rows above 60 degrees stay at their zero value; a sea pixel gets 0.
   */
  method BuildDesertFactorMatrix(gc: GeoCoverage, tb: TileBounds, em: ElevationMap, zoom: Uint32) returns (m: seq<seq<Factor>>)
    requires em.Valid() && em.tileSize <= |tb.xLookup| && em.tileSize <= |tb.yLookup|
    ensures |m| == em.tileSize
    ensures forall y :: 0 <= y < |m| ==> |m[y]| == em.tileSize
    ensures forall y, x :: 0 <= y < em.tileSize && 0 <= x < em.tileSize ==> m[y][x] == DesertCell(em, tb, gc, x, y)
  {
    m := [];
    var y := 0;
    while y < em.tileSize
      invariant 0 <= y <= em.tileSize && |m| == y
      invariant forall y' :: 0 <= y' < y ==> |m[y']| == em.tileSize
      invariant forall y', x :: 0 <= y' < y && 0 <= x < em.tileSize ==> m[y'][x] == DesertCell(em, tb, gc, x, y')
    {
      var latitude := GetPixelLat(tb, y);
      var row := seq(em.tileSize, _ => Value(0.0));
      if Abs(latitude) > 60.0 {
        m := m + [row];
        y := y + 1;
        continue;
      }
      var x := 0;
      while x < em.tileSize
        invariant 0 <= x <= em.tileSize && |row| == em.tileSize
        invariant forall x' :: 0 <= x' < x ==> row[x'] == DesertCell(em, tb, gc, x', y)
      {
        if !IsLand(em.GetElevation(x, y)) {
          row := row[x := Value(0.0)];
          x := x + 1;
          continue;
        }
        var longitude := GetPixelLng(tb, x);
        row := row[x := DesertFactorForPoint(gc, longitude, latitude)];
        x := x + 1;
      }
      m := m + [row];
      y := y + 1;
    }
  }
}
