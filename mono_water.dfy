/**
 * colors/mono-terrain/water.go: WaterMonoTerrainProfile.GetImage, a Gray16
 * image keeping the elevation of water cells.
 */
module MonoWater {
  import opened Colors
  import opened MonoCodec

  const MaxZoom := 14

  /**
   * The level of one cell: land is ZeroElevation; any other cell is its
   * encoded elevation, ice or not (the ice level is Set and then always
   * overwritten).
   */
  function WaterPixel(cell: DataCell): (p: Gray16)
    ensures cell.isLand ==> p == ZeroElevation
    ensures !cell.isLand ==> p == Encode(cell.elevation)
  {
    if cell.isLand then ZeroElevation
    else if cell.elevation == 0.0 then
      SentinelsDecode(); ZeroElevation
    else Encode(cell.elevation)
  }

  /** The ice flag never shows in the output. */
  lemma IceIgnored(cell: DataCell)
    ensures WaterPixel(cell) == WaterPixel(cell.(isIce := !cell.isIce))
  {
  }

  /**
   * GetImage: a fresh Gray16 image over imgRect; each data-map position the
   * rectangle holds gets its cell's level, every other pixel stays 0. It
   * never fails.
   */
  method GetImage(imgRect: Rect, input: ColorInput) returns (output: array2<Gray16>)
    requires imgRect.WellFormed()
    ensures fresh(output)
    ensures output.Length0 == imgRect.Height() && output.Length1 == imgRect.Width()
    ensures ImageDone(output, imgRect, input.dataMap, WaterPixel, Black)
  {
    var dataMap := input.dataMap;
    output := new Gray16[imgRect.Height(), imgRect.Width()]((_, _) => Black);
    StartImage(output, imgRect, dataMap, WaterPixel, Black);
    var y := 0;
    while y < |dataMap|
      invariant 0 <= y <= |dataMap|
      invariant ImageAfter(output, imgRect, dataMap, WaterPixel, Black, y, 0)
    {
      var row := dataMap[y];
      var x := 0;
      while x < |row|
        invariant 0 <= x <= |row|
        invariant ImageAfter(output, imgRect, dataMap, WaterPixel, Black, y, x)
      {
        var cell := row[x];
        if cell.isLand {
          Set(output, imgRect, x, y, ZeroElevation);
          x := x + 1;
          continue;
        }
        if cell.isIce {
          Set(output, imgRect, x, y, IceElevation);
        }
        if cell.elevation == 0.0 {
          Set(output, imgRect, x, y, ZeroElevation);
        } else {
          Set(output, imgRect, x, y, Encode(cell.elevation));
        }
        x := x + 1;
      }
      NextDataRow(output, imgRect, dataMap, WaterPixel, Black, y);
      y := y + 1;
    }
    EndImage(output, imgRect, dataMap, WaterPixel, Black);
  }
}
