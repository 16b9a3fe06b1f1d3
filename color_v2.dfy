/**
 * colors/color_v2/color.go: ColorV2Provider.GetImage, which colours each
 * cell from a water, a normal or a polar palette into an NRGBA image.
 */
module ColorV2 {
  import opened Numeric
  import opened Outcomes
  import opened Colors
  import opened ColorHelpers

  const MaxZoom: Uint32 := 13

  function Stop(e: real, r: Byte, g: Byte, b: Byte): ColorStop {
    ColorStop(e, Color(r, g, b, 255))
  }

  const WaterPalette := ColorPalette([
    Stop(-7000.0, 69, 121, 180), Stop(-2500.0, 133, 185, 228), Stop(-2000.0, 141, 193, 234),
    Stop(-1500.0, 149, 201, 240), Stop(-1000.0, 161, 210, 247), Stop(-500.0, 171, 219, 252),
    Stop(-200.0, 185, 227, 255), Stop(-50.0, 200, 234, 255), Stop(0.0, 216, 242, 254)])

  const NormalPalette := ColorPalette([
    Stop(0.0, 172, 208, 165), Stop(100.0, 148, 191, 139), Stop(250.0, 168, 198, 143),
    Stop(500.0, 189, 204, 150), Stop(750.0, 209, 215, 171), Stop(1250.0, 239, 235, 192),
    Stop(1500.0, 222, 214, 163), Stop(2000.0, 211, 202, 157), Stop(2500.0, 202, 185, 130),
    Stop(3000.0, 192, 154, 83), Stop(5000.0, 168, 120, 62), Stop(6500.0, 133, 100, 50),
    Stop(8000.0, 100, 70, 30)])

  const PolarPalette := ColorPalette([
    Stop(0.0, 235, 246, 250), Stop(50.0, 228, 240, 245), Stop(200.0, 225, 234, 237),
    Stop(400.0, 211, 221, 222), Stop(700.0, 218, 228, 230), Stop(1000.0, 217, 221, 222),
    Stop(1500.0, 227, 231, 232), Stop(2000.0, 233, 238, 240), Stop(2500.0, 237, 243, 245),
    Stop(3000.0, 245, 251, 252)])

  /** The stops of each palette are strictly increasing, as the segment search needs. */
  lemma WaterPaletteIncreasing()
    ensures StrictlyIncreasing(WaterPalette.stops)
  {
    var s := WaterPalette.stops;
    assert IncreasingFrom(s, 8) && IncreasingFrom(s, 7) && IncreasingFrom(s, 6);
    assert IncreasingFrom(s, 5) && IncreasingFrom(s, 4) && IncreasingFrom(s, 3);
    assert IncreasingFrom(s, 2) && IncreasingFrom(s, 1) && IncreasingFrom(s, 0);
    IncreasingFromGivesStrict(s, 0);
  }

  lemma NormalPaletteIncreasing()
    ensures StrictlyIncreasing(NormalPalette.stops)
  {
    var s := NormalPalette.stops;
    assert IncreasingFrom(s, 12) && IncreasingFrom(s, 11) && IncreasingFrom(s, 10);
    assert IncreasingFrom(s, 9) && IncreasingFrom(s, 8) && IncreasingFrom(s, 7);
    assert IncreasingFrom(s, 6) && IncreasingFrom(s, 5) && IncreasingFrom(s, 4);
    assert IncreasingFrom(s, 3) && IncreasingFrom(s, 2) && IncreasingFrom(s, 1);
    assert IncreasingFrom(s, 0);
    IncreasingFromGivesStrict(s, 0);
  }

  lemma PolarPaletteIncreasing()
    ensures StrictlyIncreasing(PolarPalette.stops)
  {
    var s := PolarPalette.stops;
    assert IncreasingFrom(s, 9) && IncreasingFrom(s, 8) && IncreasingFrom(s, 7);
    assert IncreasingFrom(s, 6) && IncreasingFrom(s, 5) && IncreasingFrom(s, 4);
    assert IncreasingFrom(s, 3) && IncreasingFrom(s, 2) && IncreasingFrom(s, 1);
    assert IncreasingFrom(s, 0);
    IncreasingFromGivesStrict(s, 0);
  }

  /** The palette a cell is coloured from: polar for any ice, water for other non-land, normal for other land. */
  function CellPalette(cell: DataCell): (p: ColorPalette)
    ensures |p.stops| > 0 && StrictlyIncreasing(p.stops)
    ensures p == WaterPalette <==> !cell.isLand && !cell.isIce
    ensures p == PolarPalette <==> cell.isIce
    ensures p == NormalPalette <==> cell.isLand && !cell.isIce
  {
    WaterPaletteIncreasing();
    NormalPaletteIncreasing();
    PolarPaletteIncreasing();
    if !cell.isLand then
      if !cell.isIce then WaterPalette else PolarPalette
    else if cell.isIce then PolarPalette
    else NormalPalette
  }

  /** The pixel of one cell. */
  function CellColor(cell: DataCell, pow: Pow): Color {
    PaletteColor(cell.elevation, CellPalette(cell), pow)
  }

  function Painter(pow: Pow): DataCell -> Color {
    cell => CellColor(cell, pow)
  }

  lemma PainterOf(pow: Pow, cell: DataCell)
    ensures Painter(pow)(cell) == PaletteColor(cell.elevation, CellPalette(cell), pow)
  {
  }

  /**
   * GetImage. It fails, in this order, on a zoom above 13, on an empty data
   * map and on a cancelled context (cancelled), and otherwise returns a fresh
   * NRGBA image over imgRect whose data-map positions hold their cell's
   * palette colour and whose other pixels are zero.
   */
  method GetImage(imgRect: Rect, input: ColorInput, cancelled: bool, pow: Pow)
    returns (err: Option<ProviderError>, output: array2?<Color>)
    requires imgRect.WellFormed()
    ensures input.zoom > MaxZoom ==> err == Some(ZoomNotSupported(input.zoom)) && output == null
    ensures input.zoom <= MaxZoom && |input.dataMap| == 0 ==> err == Some(EmptyDataMap) && output == null
    ensures input.zoom <= MaxZoom && |input.dataMap| > 0 && cancelled ==> err == Some(Cancelled) && output == null
    ensures input.zoom <= MaxZoom && |input.dataMap| > 0 && !cancelled ==>
      err == None && output != null && fresh(output) &&
      output.Length0 == imgRect.Height() && output.Length1 == imgRect.Width() &&
      ImageDone(output, imgRect, input.dataMap, Painter(pow), Blank)
  {
    if input.zoom > MaxZoom {
      return Some(ZoomNotSupported(input.zoom)), null;
    }
    if |input.dataMap| == 0 {
      return Some(EmptyDataMap), null;
    }
    if cancelled {
      return Some(Cancelled), null;
    }
    var dataMap := input.dataMap;
    var image := new Color[imgRect.Height(), imgRect.Width()]((_, _) => Blank);
    StartImage(image, imgRect, dataMap, Painter(pow), Blank);
    var y := 0;
    while y < |dataMap|
      invariant 0 <= y <= |dataMap|
      invariant ImageAfter(image, imgRect, dataMap, Painter(pow), Blank, y, 0)
    {
      var row := dataMap[y];
      var x := 0;
      while x < |row|
        invariant 0 <= x <= |row|
        invariant ImageAfter(image, imgRect, dataMap, Painter(pow), Blank, y, x)
      {
        var cell := row[x];
        var elevation := cell.elevation;
        var c: Color;
        PainterOf(pow, cell);
        if !cell.isLand {
          if !cell.isIce {
            c := GetColorFromPalette(elevation, WaterPalette, pow);
          } else {
            c := GetColorFromPalette(elevation, PolarPalette, pow);
          }
          SetNext(image, imgRect, dataMap, Painter(pow), Blank, x, y, c);
          x := x + 1;
          continue;
        }
        if cell.isIce {
          c := GetColorFromPalette(elevation, PolarPalette, pow);
          SetNext(image, imgRect, dataMap, Painter(pow), Blank, x, y, c);
          x := x + 1;
          continue;
        }
        c := GetColorFromPalette(elevation, NormalPalette, pow);
        SetNext(image, imgRect, dataMap, Painter(pow), Blank, x, y, c);
        x := x + 1;
      }
      NextDataRow(image, imgRect, dataMap, Painter(pow), Blank, y);
      y := y + 1;
    }
    EndImage(image, imgRect, dataMap, Painter(pow), Blank);
    return None, image;
  }
}
