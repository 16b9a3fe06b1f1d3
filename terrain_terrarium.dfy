/**
 * terrain/terrarium.go: the Terrarium elevation decoding of a composite
 * image, the 512 x 512 compositing of four subtiles, and the coordinates of
 * the subtiles fetched for a tile (the downloads themselves are not modelled).
 */
module TerrainTerrarium {
  import opened Numeric
  import opened Imaging
  import opened Elevation

  /** The Terrarium decoding R * 256 + G + B / 256 - 32768 of three bytes. */
  function TerrariumElevation(r8: Byte, g8: Byte, b8: Byte): (e: real)
    ensures -32768.0 <= e <= 32768.0 - 1.0 / 256.0
  {
    r8 as real * 256.0 + g8 as real + b8 as real / 256.0 - 32768.0
  }

  /** The decoded elevation of one pixel: the high byte of each 16-bit channel. */
  function PixelElevation(c: Rgba64): (e: real)
    ensures e == TerrariumElevation(ToRgba(c).r, ToRgba(c).g, ToRgba(c).b)
  {
    var r8, g8, b8 := c.r / 256, c.g / 256, c.b / 256;
    TerrariumElevation(r8, g8, b8)
  }

  /** newElevationMapFromTerrarium: Dy rows of Dx decoded elevations; TileSize is Bounds().Max.X. */
  method NewElevationMapFromTerrarium(img: Image) returns (em: ElevationMap)
    ensures fresh(em)
    ensures em.tileSize == img.dx && |em.data| == img.dy
    ensures forall y :: 0 <= y < img.dy ==> |em.data[y]| == img.dx
    ensures forall y, x :: 0 <= y < img.dy && 0 <= x < img.dx ==> em.data[y][x] == PixelElevation(img.at(x, y))
    ensures img.dx == img.dy ==> em.Valid()
  {
    var data: seq<seq<real>> := [];
    var y := 0;
    while y < img.dy
      invariant 0 <= y <= img.dy && |data| == y
      invariant forall y' :: 0 <= y' < y ==> |data[y']| == img.dx
      invariant forall y', x :: 0 <= y' < y && 0 <= x < img.dx ==> data[y'][x] == PixelElevation(img.at(x, y'))
    {
      var row: seq<real> := [];
      var x := 0;
      while x < img.dx
        invariant 0 <= x <= img.dx && |row| == x
        invariant forall x' :: 0 <= x' < x ==> row[x'] == PixelElevation(img.at(x', y))
      {
        var c := img.at(x, y);
        var r8, g8, b8 := c.r / 256, c.g / 256, c.b / 256;
        row := row + [r8 as real * 256.0 + g8 as real + b8 as real / 256.0 - 32768.0];
        x := x + 1;
      }
      data := data + [row];
      y := y + 1;
    }
    em := new ElevationMap(data, img.dx);
  }

  /**
   * The coordinate of subtile (i, j) of parent (parentZ, parentY, parentX):
   * one zoom deeper, X = 2 parentX + j, Y = 2 parentY + i, in uint32 arithmetic.
   */
  function SubTileCoord(parentZ: Uint32, parentY: Uint32, parentX: Uint32, i: nat, j: nat): TileCoord {
    TileCoord(Wrap32(parentZ + 1), Wrap32(Wrap32(parentX * 2) + j), Wrap32(Wrap32(parentY * 2) + i))
  }

  /** downloadSubTiles' coordinates: subtile (i, j) in slot 2i + j. */
  method DownloadSubTileCoords(parentZ: Uint32, parentY: Uint32, parentX: Uint32) returns (coords: seq<TileCoord>)
    ensures |coords| == 4
    ensures forall i, j :: 0 <= i < 2 && 0 <= j < 2 ==> coords[2 * i + j] == SubTileCoord(parentZ, parentY, parentX, i, j)
  {
    var slots := new TileCoord[4];
    var i := 0;
    while i < 2
      invariant 0 <= i <= 2
      invariant forall i', j :: 0 <= i' < i && 0 <= j < 2 ==> slots[2 * i' + j] == SubTileCoord(parentZ, parentY, parentX, i', j)
    {
      var j := 0;
      while j < 2
        invariant 0 <= j <= 2
        invariant forall i', j' :: 0 <= i' < i && 0 <= j' < 2 ==> slots[2 * i' + j'] == SubTileCoord(parentZ, parentY, parentX, i', j')
        invariant forall j' :: 0 <= j' < j ==> slots[2 * i + j'] == SubTileCoord(parentZ, parentY, parentX, i, j')
      {
        slots[2 * i + j] := SubTileCoord(parentZ, parentY, parentX, i, j);
        j := j + 1;
      }
      i := i + 1;
    }
    coords := slots[..];
  }

  /** Subtile (i, j) has X parity j and Y parity i, even where the doubling wraps. */
  lemma SubTileParities(parentZ: Uint32, parentY: Uint32, parentX: Uint32, i: nat, j: nat)
    requires i < 2 && j < 2
    ensures SubTileCoord(parentZ, parentY, parentX, i, j).x % 2 == j
    ensures SubTileCoord(parentZ, parentY, parentX, i, j).y % 2 == i
  {
    var baseX, baseY := Wrap32(parentX * 2), Wrap32(parentY * 2);
    EvenWrap(parentX);
    EvenWrap(parentY);
    assert baseX + j < 0x1_0000_0000 && baseY + i < 0x1_0000_0000;
  }

  lemma EvenWrap(n: Uint32)
    ensures Wrap32(n * 2) % 2 == 0 && Wrap32(n * 2) < 0x1_0000_0000 - 1
  {
    if n * 2 >= 0x1_0000_0000 {
      assert Wrap32(n * 2) == n * 2 - 0x1_0000_0000;
    }
  }

  /** The four slots hold four different coordinates. */
  lemma SubTilesDistinct(parentZ: Uint32, parentY: Uint32, parentX: Uint32, i: nat, j: nat, i': nat, j': nat)
    requires i < 2 && j < 2 && i' < 2 && j' < 2 && (i, j) != (i', j')
    ensures SubTileCoord(parentZ, parentY, parentX, i, j) != SubTileCoord(parentZ, parentY, parentX, i', j')
  {
    SubTileParities(parentZ, parentY, parentX, i, j);
    SubTileParities(parentZ, parentY, parentX, i', j');
  }

  /**
   * GetElevationMapForTerrarium hands (Z, X, Y) to the parameters (parentZ,
   * parentY, parentX). The URL is formatted as Z/Coord.Y/Coord.X, so subtile
   * (i, j) is fetched at column 2X + i and row 2Y + j of zoom Z + 1, and the
   * compositing puts it at canvas offset (256 i, 256 j): where that child
   * belongs in the parent.
   */
  lemma ArgumentSwapPlacesChildren(coord: TileCoord, i: nat, j: nat, img: Image)
    requires i < 2 && j < 2 && coord.z < 0xFFFF_FFFF && coord.x < 0x8000_0000 && coord.y < 0x8000_0000
    ensures var c := SubTileCoord(coord.z, coord.x, coord.y, i, j);
      c.z == coord.z + 1 && c.y == 2 * coord.x + i && c.x == 2 * coord.y + j
    ensures var t := TileImage(SubTileCoord(coord.z, coord.x, coord.y, i, j), img);
      OffsetX(t) == i * TileSize && OffsetY(t) == j * TileSize
  {
    SubTileParities(coord.z, coord.x, coord.y, i, j);
  }

  /**
   * With the four 256 x 256 subtiles downloadSubTiles returns, every canvas
   * pixel shows the subtile of its quadrant: slot 2 (cx / 256) + cy / 256,
   * at (cx % 256, cy % 256).
   */
  lemma SubTilesFillQuadrants(tiles: seq<TileImage>, parentZ: Uint32, parentY: Uint32, parentX: Uint32, cx: int, cy: int)
    requires |tiles| == 4
    requires forall i, j :: 0 <= i < 2 && 0 <= j < 2 ==> tiles[2 * i + j].coord == SubTileCoord(parentZ, parentY, parentX, i, j)
    requires forall k :: 0 <= k < 4 ==> tiles[k].image.dx == TileSize && tiles[k].image.dy == TileSize
    requires 0 <= cx < 2 * TileSize && 0 <= cy < 2 * TileSize
    ensures CompositeAt(tiles, cx, cy) == ToRgba(tiles[2 * (cx / TileSize) + cy / TileSize].image.at(cx % TileSize, cy % TileSize))
  {
    var i := if cx < TileSize then 0 else 1;
    var j := if cy < TileSize then 0 else 1;
    assert cx / TileSize == i && cx % TileSize == cx - i * TileSize;
    assert cy / TileSize == j && cy % TileSize == cy - j * TileSize;
    var k := 2 * i + j;
    SubTileParities(parentZ, parentY, parentX, 0, 0);
    SubTileParities(parentZ, parentY, parentX, 0, 1);
    SubTileParities(parentZ, parentY, parentX, 1, 0);
    SubTileParities(parentZ, parentY, parentX, 1, 1);
    assert tiles[0].coord == SubTileCoord(parentZ, parentY, parentX, 0, 0);
    assert tiles[1].coord == SubTileCoord(parentZ, parentY, parentX, 0, 1);
    assert tiles[2].coord == SubTileCoord(parentZ, parentY, parentX, 1, 0);
    assert tiles[3].coord == SubTileCoord(parentZ, parentY, parentX, 1, 1);
    assert OffsetX(tiles[0]) == 0 && OffsetY(tiles[0]) == 0;
    assert OffsetX(tiles[1]) == 0 && OffsetY(tiles[1]) == TileSize;
    assert OffsetX(tiles[2]) == TileSize && OffsetY(tiles[2]) == 0;
    assert OffsetX(tiles[3]) == TileSize && OffsetY(tiles[3]) == TileSize;
    LastCoverWins(tiles, k, cx, cy);
  }

  /** Canvas pixel (cx, cy) while tile t is being copied, up to its local pixel (x, y) in row-major order. */
  function PartialAt(prev: seq<TileImage>, t: TileImage, x: int, y: int, cx: int, cy: int): Rgba {
    var lx, ly := cx - OffsetX(t), cy - OffsetY(t);
    if Covers(t, cx, cy) && (ly < y || (ly == y && lx < x)) then ToRgba(t.image.at(lx, ly))
    else CompositeAt(prev, cx, cy)
  }

  ghost predicate CanvasIs(canvas: array2<Rgba>, prev: seq<TileImage>, t: TileImage, x: int, y: int)
    reads canvas
  {
    forall cy, cx :: 0 <= cy < canvas.Length0 && 0 <= cx < canvas.Length1 ==> canvas[cy, cx] == PartialAt(prev, t, x, y, cx, cy)
  }

  ghost predicate CanvasDone(canvas: array2<Rgba>, tiles: seq<TileImage>)
    reads canvas
  {
    forall cy, cx :: 0 <= cy < canvas.Length0 && 0 <= cx < canvas.Length1 ==> canvas[cy, cx] == CompositeAt(tiles, cx, cy)
  }

  lemma StartTile(canvas: array2<Rgba>, prev: seq<TileImage>, t: TileImage)
    requires CanvasDone(canvas, prev)
    ensures CanvasIs(canvas, prev, t, 0, 0)
  {
  }

  lemma NextRow(canvas: array2<Rgba>, prev: seq<TileImage>, t: TileImage, y: int)
    requires CanvasIs(canvas, prev, t, t.image.dx, y)
    ensures CanvasIs(canvas, prev, t, 0, y + 1)
  {
  }

  lemma EndTile(canvas: array2<Rgba>, prev: seq<TileImage>, t: TileImage)
    requires CanvasIs(canvas, prev, t, 0, t.image.dy)
    ensures CanvasDone(canvas, prev + [t])
  {
    assert (prev + [t])[..|prev|] == prev;
  }

  /** One pass of compositeImages' outer loop: tile t drawn over the canvas of the earlier tiles. */
  method CopyTile(canvas: array2<Rgba>, prev: seq<TileImage>, t: TileImage)
    requires CanvasDone(canvas, prev)
    modifies canvas
    ensures CanvasDone(canvas, prev + [t])
  {
    StartTile(canvas, prev, t);
    var y := 0;
    while y < t.image.dy
      invariant 0 <= y <= t.image.dy
      invariant CanvasIs(canvas, prev, t, 0, y)
    {
      CopyRow(canvas, prev, t, y);
      NextRow(canvas, prev, t, y);
      y := y + 1;
    }
    EndTile(canvas, prev, t);
  }

  /** Row y of tile t, pixel by pixel; a write off the canvas is dropped. */
  method CopyRow(canvas: array2<Rgba>, prev: seq<TileImage>, t: TileImage, y: int)
    requires 0 <= y < t.image.dy
    requires CanvasIs(canvas, prev, t, 0, y)
    modifies canvas
    ensures CanvasIs(canvas, prev, t, t.image.dx, y)
  {
    var offsetX, offsetY := OffsetX(t), OffsetY(t);
    var x := 0;
    while x < t.image.dx
      invariant 0 <= x <= t.image.dx
      invariant CanvasIs(canvas, prev, t, x, y)
    {
      if x + offsetX < canvas.Length1 && y + offsetY < canvas.Length0 {
        canvas[y + offsetY, x + offsetX] := ToRgba(t.image.at(x, y));
      }
      x := x + 1;
    }
  }

  /**
   * compositeImages: a fresh 512 x 512 canvas onto which the tiles are copied
   * in list order, pixel (x, y) of a tile going to (x + OffsetX, y + OffsetY);
   * writes that fall off the canvas are dropped, as image.RGBA's Set drops them.
   */
  method CompositeImages(tiles: seq<TileImage>) returns (canvas: array2<Rgba>)
    ensures fresh(canvas)
    ensures canvas.Length0 == 2 * TileSize && canvas.Length1 == 2 * TileSize
    ensures forall cy, cx :: 0 <= cy < 2 * TileSize && 0 <= cx < 2 * TileSize ==> canvas[cy, cx] == CompositeAt(tiles, cx, cy)
  {
    canvas := new Rgba[2 * TileSize, 2 * TileSize]((_, _) => Transparent);
    assert tiles[..0] == [];
    var k := 0;
    while k < |tiles|
      invariant 0 <= k <= |tiles|
      invariant CanvasDone(canvas, tiles[..k])
    {
      CopyTile(canvas, tiles[..k], tiles[k]);
      assert tiles[..k] + [tiles[k]] == tiles[..k + 1];
      k := k + 1;
    }
    assert tiles[..|tiles|] == tiles;
  }
}
