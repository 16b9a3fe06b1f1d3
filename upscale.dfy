/**
 * upscale.go's compositeImages: the same copy rule as terrain/terrarium.go's
 * (the method is TerrainTerrarium.CompositeImages, its meaning
 * Imaging.CompositeAt); what this module adds is the fact that tiles of
 * different parities never compete for a canvas pixel.
 */
module Upscale {
  import opened Imaging

  /** A tile no larger than a source tile. */
  predicate TileSized(t: TileImage) {
    t.image.dx <= TileSize && t.image.dy <= TileSize
  }

  /** Tiles whose (Y % 2, X % 2) parities differ and that fit in a source tile write disjoint canvas pixels. */
  lemma DistinctParitiesDisjoint(s: TileImage, t: TileImage, cx: int, cy: int)
    requires TileSized(s) && TileSized(t)
    requires (s.coord.y % 2, s.coord.x % 2) != (t.coord.y % 2, t.coord.x % 2)
    ensures !(Covers(s, cx, cy) && Covers(t, cx, cy))
  {
    if s.coord.y % 2 != t.coord.y % 2 {
      assert OffsetX(s) != OffsetX(t);
    } else {
      assert OffsetY(s) != OffsetY(t);
    }
  }

  /**
   * With pairwise distinct parities, the canvas pixel shows the one tile that
   * covers it, whatever the order of the list.
   */
  lemma OrderIrrelevantForDistinctParities(tiles: seq<TileImage>, k: nat, cx: int, cy: int)
    requires k < |tiles| && Covers(tiles[k], cx, cy)
    requires forall i :: 0 <= i < |tiles| ==> TileSized(tiles[i])
    requires forall i, j :: 0 <= i < j < |tiles| ==>
      (tiles[i].coord.y % 2, tiles[i].coord.x % 2) != (tiles[j].coord.y % 2, tiles[j].coord.x % 2)
    ensures CompositeAt(tiles, cx, cy) == ToRgba(tiles[k].image.at(cx - OffsetX(tiles[k]), cy - OffsetY(tiles[k])))
  {
    forall k' | k < k' < |tiles|
      ensures !Covers(tiles[k'], cx, cy)
    {
      DistinctParitiesDisjoint(tiles[k], tiles[k'], cx, cy);
    }
    LastCoverWins(tiles, k, cx, cy);
  }
}
