/**
 * TileBounds (tile_to_geo.go): the geographic extent of a slippy-map tile and
 * the per-pixel longitude and latitude lookup tables. The Mercator inverse
 * (the latitude of a tile edge and of a pixel row) is kept abstract.
 */
module TileToGeo {
  import opened Numeric
  import opened Geo

  datatype TileBounds = TileBounds(
    zoom: Uint32, tileX: Uint32, tileY: Uint32,
    minLat: real, maxLat: real, minLon: real, maxLon: real,
    xLookup: seq<real>, yLookup: seq<real>)

  /** The latitude of the northern edge of tile row y at zoom z (atan(sinh(pi - 2 pi y / 2^z)) in degrees). */
  type EdgeLatitude = (nat, nat) -> real

  /**
   * The latitude of pixel row p of a tile of `tileSize` rows, interpolated in
   * Mercator space between the latitudes given first and second.
   */
  type PixelLatitude = (real, real, int, int) -> real

  /** 360 / 2^z degrees: the width of one tile at zoom z. */
  function TileWidth(z: nat): (w: real)
    ensures w > 0.0
    ensures w * Pow2(z) as real == 360.0
  {
    var n := Pow2(z) as real;
    DivTimes(360.0, n);
    360.0 / n
  }

  lemma DivTimes(a: real, n: real)
    requires a > 0.0 && n > 0.0
    ensures a / n > 0.0 && (a / n) * n == a
  {
  }

  /** getTileLongitudes: the western and eastern edge of tile column x, one tile width apart. */
  function GetTileLongitudes(z: nat, x: nat): (r: (real, real))
    ensures r.0 < r.1
    ensures r.1 - r.0 == TileWidth(z)
    ensures r.0 + 180.0 == x as real * TileWidth(z)
  {
    var minLon := x as real * TileWidth(z) - 180.0;
    (minLon, minLon + TileWidth(z))
  }

  /** Neighbouring columns meet: the eastern edge of x is the western edge of x + 1. */
  lemma AdjacentTilesShareEdge(z: nat, x: nat)
    ensures GetTileLongitudes(z, x).1 == GetTileLongitudes(z, x + 1).0
  {
    var w := TileWidth(z);
    assert (x + 1) as real * w == x as real * w + w;
  }

  /** Column 0 starts at the antimeridian and column 2^z - 1 ends at it. */
  lemma ColumnsSpanTheGlobe(z: nat)
    ensures GetTileLongitudes(z, 0).0 == -180.0
    ensures GetTileLongitudes(z, Pow2(z) - 1).1 == 180.0
  {
    var w := TileWidth(z);
    var k := Pow2(z) - 1;
    assert k as real * w + w == (k + 1) as real * w;
  }

  /**
   * getTileLatitudes: the edge computed from row y, then the edge computed
   * from row y + 1 (uint32 arithmetic), in that order, although the source
   * names them maxLat and minLat and its caller reads them as (minLat, maxLat).
   */
  function GetTileLatitudes(z: Uint32, y: Uint32, edge: EdgeLatitude): (r: (real, real))
    ensures r.0 == edge(z, y)
    ensures y + 1 < 0x1_0000_0000 ==> r.1 == edge(z, y + 1)
    ensures y + 1 == 0x1_0000_0000 ==> r.1 == edge(z, 0)
  {
    (edge(z, y), edge(z, Wrap32(y + 1)))
  }

  /** The longitude of pixel column p: minLon plus the fraction p / tileSize of the tile width. */
  function LonAt(minLon: real, maxLon: real, p: int, tileSize: int): (lon: real)
    requires tileSize > 0
    ensures p == 0 ==> lon == minLon
    ensures p == tileSize ==> lon == maxLon
  {
    minLon + (p as real / tileSize as real) * (maxLon - minLon)
  }

  /**
   * The xLookup table starts at the western edge, is strictly increasing and
   * stays below the eastern edge, because it is normalised by tileSize and not
   * tileSize - 1.
   */
  lemma LonLookupSpansTile(minLon: real, maxLon: real, p: int, q: int, tileSize: int)
    requires tileSize > 0 && minLon < maxLon
    requires 0 <= p < q < tileSize
    ensures LonAt(minLon, maxLon, 0, tileSize) == minLon
    ensures minLon <= LonAt(minLon, maxLon, p, tileSize) < LonAt(minLon, maxLon, q, tileSize) < maxLon
  {
    if p > 0 {
      LonAtStrict(minLon, maxLon, 0, p, tileSize);
    }
    LonAtStrict(minLon, maxLon, p, q, tileSize);
    LonAtStrict(minLon, maxLon, q, tileSize, tileSize);
  }

  /** Longitudes grow strictly with the pixel column. */
  lemma LonAtStrict(minLon: real, maxLon: real, p: int, q: int, tileSize: int)
    requires tileSize > 0 && minLon < maxLon && p < q
    ensures LonAt(minLon, maxLon, p, tileSize) < LonAt(minLon, maxLon, q, tileSize)
  {
    var n := tileSize as real;
    DivStrict(p as real, q as real, n);
    MulStrict(p as real / n, q as real / n, maxLon - minLon);
  }

  lemma DivStrict(a: real, b: real, n: real)
    requires a < b && n > 0.0
    ensures a / n < b / n
  {
    var u, v := a / n, b / n;
    assert u * n == a && v * n == b;
    if u >= v {
      assert u * n - v * n == (u - v) * n;
    }
  }

  lemma MulStrict(a: real, b: real, d: real)
    requires a < b && d > 0.0
    ensures a * d < b * d
  {
  }

  /**
   * CreateTileBounds: the tile's edges and both lookup tables. The zoom and
   * tile coordinates are never filled in and stay zero.
   */
  method CreateTileBounds(zoom: Uint32, tileY: Uint32, tileX: Uint32, tileSize: int,
                          edge: EdgeLatitude, pixelLat: PixelLatitude) returns (tb: TileBounds)
    requires tileSize >= 0
    ensures tb.zoom == 0 && tb.tileX == 0 && tb.tileY == 0
    ensures (tb.minLat, tb.maxLat) == GetTileLatitudes(zoom, tileY, edge)
    ensures (tb.minLon, tb.maxLon) == GetTileLongitudes(zoom, tileX)
    ensures |tb.yLookup| == tileSize
    ensures forall p :: 0 <= p < tileSize ==> tb.yLookup[p] == pixelLat(tb.minLat, tb.maxLat, p, tileSize)
    ensures |tb.xLookup| == tileSize
    ensures forall p :: 0 <= p < tileSize ==> tb.xLookup[p] == LonAt(tb.minLon, tb.maxLon, p, tileSize)
  {
    var lats := GetTileLatitudes(zoom, tileY, edge);
    var minLat, maxLat := lats.0, lats.1;
    var lons := GetTileLongitudes(zoom, tileX);
    var minLon, maxLon := lons.0, lons.1;

    var yLookup := new real[tileSize];
    var pixelY := 0;
    while pixelY < tileSize
      invariant 0 <= pixelY <= tileSize
      invariant forall p :: 0 <= p < pixelY ==> yLookup[p] == pixelLat(minLat, maxLat, p, tileSize)
    {
      yLookup[pixelY] := pixelLat(minLat, maxLat, pixelY, tileSize);
      pixelY := pixelY + 1;
    }

    var yTable := yLookup[..];
    var xLookup := new real[tileSize];
    var pixelX := 0;
    while pixelX < tileSize
      invariant 0 <= pixelX <= tileSize
      invariant forall p :: 0 <= p < pixelX ==> xLookup[p] == LonAt(minLon, maxLon, p, tileSize)
    {
      xLookup[pixelX] := minLon + (pixelX as real / tileSize as real) * (maxLon - minLon);
      pixelX := pixelX + 1;
    }

    tb := TileBounds(0, 0, 0, minLat, maxLat, minLon, maxLon, xLookup[..], yTable);
  }

  /** GetPixelLat: the latitude of pixel row y (the source indexes the table unchecked). */
  function GetPixelLat(tb: TileBounds, y: int): (lat: real)
    requires 0 <= y < |tb.yLookup|
    ensures lat in tb.yLookup
  {
    tb.yLookup[y]
  }

  /** GetPixelLng: the longitude of pixel column x. */
  function GetPixelLng(tb: TileBounds, x: int): (lon: real)
    requires 0 <= x < |tb.xLookup|
    ensures lon in tb.xLookup
  {
    tb.xLookup[x]
  }

  /** Bound: the box from (MinLon, MinLat) to (MaxLon, MaxLat), closed on every side. */
  function TileBound(tb: TileBounds): (b: Bound)
    ensures forall lon: real, lat: real :: Contains(b, Point(lon, lat)) <==>
      tb.minLon <= lon <= tb.maxLon && tb.minLat <= lat <= tb.maxLat
    ensures b.min.x == tb.minLon && b.max.x == tb.maxLon
  {
    Bound(Point(tb.minLon, tb.minLat), Point(tb.maxLon, tb.maxLat))
  }

  /**
   * Because MinLat holds the northern edge, the bound of a tile whose edges
   * fall southward row by row is empty in orb's sense (Min.Y > Max.Y).
   */
  lemma LatitudeSwapInvertsBound(tb: TileBounds, zoom: Uint32, tileY: Uint32, edge: EdgeLatitude)
    requires (tb.minLat, tb.maxLat) == GetTileLatitudes(zoom, tileY, edge)
    requires tileY + 1 < 0x1_0000_0000 && edge(zoom, tileY + 1) < edge(zoom, tileY)
    ensures IsEmpty(TileBound(tb))
  {
  }
}
