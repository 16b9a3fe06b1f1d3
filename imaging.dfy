/**
 * The parts of Go's image and image/color packages the tile pipeline
 * relies on: 16-bit RGBA() values, the 8-bit pixel of an *image.RGBA and the
 * conversion between them, images with origin (0, 0), and the tile
 * compositing rule shared by terrain/terrarium.go and upscale.go.
 */
module Imaging {
  import opened Numeric

  /** What color.Color's RGBA() returns: four 16-bit channels. */
  datatype Rgba64 = Rgba64(r: Uint16, g: Uint16, b: Uint16, a: Uint16)

  /** color.RGBA, the pixel of an *image.RGBA. */
  datatype Rgba = Rgba(r: Byte, g: Byte, b: Byte, a: Byte)

  /** The zero pixel a new *image.RGBA starts with. */
  const Transparent := Rgba(0, 0, 0, 0)

  /** color.RGBAModel: the high byte of each 16-bit channel (r >> 8). */
  function ToRgba(c: Rgba64): (p: Rgba)
    ensures p.r as real <= c.r as real / 256.0 < p.r as real + 1.0
  {
    Rgba(c.r / 256, c.g / 256, c.b / 256, c.a / 256)
  }

  /** color.RGBA's RGBA(): each byte copied into both halves of its channel. */
  function Expand(p: Rgba): Rgba64 {
    Rgba64(p.r * 257, p.g * 257, p.b * 257, p.a * 257)
  }

  /** Reading a stored pixel back and converting it again gives the same pixel. */
  lemma ExpandRoundTrip(p: Rgba)
    ensures ToRgba(Expand(p)) == p
  {
    assert p.r * 257 == p.r * 256 + p.r;
    assert p.g * 257 == p.g * 256 + p.g;
    assert p.b * 257 == p.b * 256 + p.b;
    assert p.a * 257 == p.a * 256 + p.a;
  }

  /** An image.Image whose Bounds() is (0, 0)-(dx, dy). */
  datatype Image = Image(dx: nat, dy: nat, at: (int, int) -> Rgba64)

  /** A slippy-map tile coordinate. */
  datatype TileCoord = TileCoord(z: Uint32, x: Uint32, y: Uint32)

  /** A downloaded tile and the coordinate it was fetched for. */
  datatype TileImage = TileImage(coord: TileCoord, image: Image)

  /** The side of a source tile; the composite canvas is twice as wide and high. */
  const TileSize: nat := 256

  /** Where a tile's pixels start on the canvas: its Y parity picks the column, its X parity the row. */
  function OffsetX(t: TileImage): (o: nat)
    ensures o == 0 || o == TileSize
  {
    (t.coord.y % 2) * TileSize
  }

  function OffsetY(t: TileImage): (o: nat)
    ensures o == 0 || o == TileSize
  {
    (t.coord.x % 2) * TileSize
  }

  /** Tile t writes canvas pixel (cx, cy). */
  predicate Covers(t: TileImage, cx: int, cy: int) {
    0 <= cx - OffsetX(t) < t.image.dx && 0 <= cy - OffsetY(t) < t.image.dy
  }

  /**
   * Canvas pixel (cx, cy) after the tiles are copied in order: the pixel of
   * the last tile that covers it, or the zero pixel if none does.
   */
  function CompositeAt(tiles: seq<TileImage>, cx: int, cy: int): (p: Rgba)
    ensures (forall k :: 0 <= k < |tiles| ==> !Covers(tiles[k], cx, cy)) ==> p == Transparent
  {
    if |tiles| == 0 then Transparent
    else
      var t := tiles[|tiles| - 1];
      if Covers(t, cx, cy) then ToRgba(t.image.at(cx - OffsetX(t), cy - OffsetY(t)))
      else
        assert forall k :: 0 <= k < |tiles| - 1 ==> tiles[..|tiles| - 1][k] == tiles[k];
        CompositeAt(tiles[..|tiles| - 1], cx, cy)
  }

  /** A pixel shows the last tile in the list that covers it. */
  lemma {:induction false} LastCoverWins(tiles: seq<TileImage>, k: nat, cx: int, cy: int)
    requires k < |tiles| && Covers(tiles[k], cx, cy)
    requires forall k' :: k < k' < |tiles| ==> !Covers(tiles[k'], cx, cy)
    ensures CompositeAt(tiles, cx, cy) == ToRgba(tiles[k].image.at(cx - OffsetX(tiles[k]), cy - OffsetY(tiles[k])))
    decreases |tiles|
  {
    if k < |tiles| - 1 {
      var init := tiles[..|tiles| - 1];
      assert init[k] == tiles[k];
      assert forall k' :: k < k' < |init| ==> init[k'] == tiles[k'];
      LastCoverWins(init, k, cx, cy);
    }
  }
}
