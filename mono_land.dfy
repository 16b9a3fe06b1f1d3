/**
 * colors/mono-terrain/land.go: LandMonoTerrainProfile.GetImage, a Gray16
 * image keeping the elevation of land cells.
 */
module MonoLand {
  import opened Colors
  import opened MonoCodec

  const MaxZoom := 14

  /** The level of one cell: water is IceElevation or ZeroElevation by its ice flag, land its encoded elevation. */
  function LandPixel(cell: DataCell): (p: Gray16)
    ensures !cell.isLand && cell.isIce ==> p == IceElevation
    ensures !cell.isLand && !cell.isIce ==> p == ZeroElevation
    ensures cell.isLand ==> p == Encode(cell.elevation)
  {
    if !cell.isLand then
      if cell.isIce then IceElevation else ZeroElevation
    else if cell.elevation == 0.0 then
      SentinelsDecode(); ZeroElevation
    else Encode(cell.elevation)
  }

  /**
   * GetImage: a fresh Gray16 image over imgRect; each data-map position the
   * rectangle holds gets its cell's level, every other pixel stays 0. It
   * never fails.
   */
  method GetImage(imgRect: Rect, input: ColorInput) returns (output: array2<Gray16>)
    requires imgRect.WellFormed()
    ensures fresh(output)
    ensures output.Length0 == imgRect.Height() && output.Length1 == imgRect.Width()
    ensures ImageDone(output, imgRect, input.dataMap, LandPixel, Black)
  {
    var dataMap := input.dataMap;
    output := new Gray16[imgRect.Height(), imgRect.Width()]((_, _) => Black);
    StartImage(output, imgRect, dataMap, LandPixel, Black);
    var y := 0;
    while y < |dataMap|
      invariant 0 <= y <= |dataMap|
      invariant ImageAfter(output, imgRect, dataMap, LandPixel, Black, y, 0)
    {
      var row := dataMap[y];
      var x := 0;
      while x < |row|
        invariant 0 <= x <= |row|
        invariant ImageAfter(output, imgRect, dataMap, LandPixel, Black, y, x)
      {
        var cell := row[x];
        if !cell.isLand {
          if cell.isIce {
            Set(output, imgRect, x, y, IceElevation);
          } else {
            Set(output, imgRect, x, y, ZeroElevation);
          }
          x := x + 1;
          continue;
        }
        if cell.elevation == 0.0 {
          Set(output, imgRect, x, y, ZeroElevation);
        } else {
          Set(output, imgRect, x, y, Encode(cell.elevation));
        }
        x := x + 1;
      }
      NextDataRow(output, imgRect, dataMap, LandPixel, Black, y);
      y := y + 1;
    }
    EndImage(output, imgRect, dataMap, LandPixel, Black);
  }
}
