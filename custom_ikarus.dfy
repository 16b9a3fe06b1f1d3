/**
 * colors/custom_ikarus/color.go: CustomerProvider.GetImage, the same
 * decision as color_v2 over a customer's own water, normal and polar
 * palettes.
 */
module CustomIkarus {
  import opened Numeric
  import opened Outcomes
  import opened Colors
  import opened ColorHelpers

  const MaxZoom: Uint32 := 13

  function Stop(e: real, r: Byte, g: Byte, b: Byte): ColorStop {
    ColorStop(e, Color(r, g, b, 255))
  }

  const WaterPalette := ColorPalette([
    Stop(-2500.0, 219, 229, 233), Stop(-2000.0, 218, 232, 234), Stop(-1000.0, 239, 240, 241),
    Stop(-200.0, 235, 241, 242), Stop(0.0, 246, 251, 253)])

  const NormalPalette := ColorPalette([
    Stop(-100.0, 242, 215, 158), Stop(0.0, 246, 240, 157), Stop(500.0, 251, 223, 175),
    Stop(700.0, 249, 238, 166), Stop(1700.0, 233, 188, 126), Stop(3000.0, 205, 193, 126),
    Stop(4200.0, 222, 203, 173)])

  const PolarPalette := ColorPalette([
    Stop(0.0, 235, 246, 250), Stop(50.0, 228, 240, 245), Stop(100.0, 250, 250, 250)])

  /** The stops of each palette are strictly increasing, as the segment search needs. */
  lemma WaterPaletteIncreasing()
    ensures StrictlyIncreasing(WaterPalette.stops)
  {
    var s := WaterPalette.stops;
    assert IncreasingFrom(s, 4) && IncreasingFrom(s, 3) && IncreasingFrom(s, 2);
    assert IncreasingFrom(s, 1) && IncreasingFrom(s, 0);
    IncreasingFromGivesStrict(s, 0);
  }

  lemma NormalPaletteIncreasing()
    ensures StrictlyIncreasing(NormalPalette.stops)
  {
    var s := NormalPalette.stops;
    assert IncreasingFrom(s, 6) && IncreasingFrom(s, 5) && IncreasingFrom(s, 4);
    assert IncreasingFrom(s, 3) && IncreasingFrom(s, 2) && IncreasingFrom(s, 1);
    assert IncreasingFrom(s, 0);
    IncreasingFromGivesStrict(s, 0);
  }

  lemma PolarPaletteIncreasing()
    ensures StrictlyIncreasing(PolarPalette.stops)
  {
    var s := PolarPalette.stops;
    assert IncreasingFrom(s, 2) && IncreasingFrom(s, 1) && IncreasingFrom(s, 0);
    IncreasingFromGivesStrict(s, 0);
  }

  /** The palette a cell is coloured from: polar for any ice, water for other non-land, normal for other land. */
  function CellPalette(cell: DataCell): (p: ColorPalette)
    ensures |p.stops| > 0 && StrictlyIncreasing(p.stops)
    ensures p == WaterPalette <==> !cell.isLand && !cell.isIce
    ensures p == PolarPalette <==> cell.isIce
    ensures p == NormalPalette <==> cell.isLand && !cell.isIce
  {
    WaterPaletteIncreasing();
    NormalPaletteIncreasing();
    PolarPaletteIncreasing();
    if !cell.isLand then
      if !cell.isIce then WaterPalette else PolarPalette
    else if cell.isIce then PolarPalette
    else NormalPalette
  }

  /** The pixel of one cell. */
  function CellColor(cell: DataCell, pow: Pow): Color {
    PaletteColor(cell.elevation, CellPalette(cell), pow)
  }

  function Painter(pow: Pow): DataCell -> Color {
    cell => CellColor(cell, pow)
  }

  lemma PainterOf(pow: Pow, cell: DataCell)
    ensures Painter(pow)(cell) == PaletteColor(cell.elevation, CellPalette(cell), pow)
  {
  }

  /**
   * GetImage. It fails, in this order, on a zoom above 13, on an empty data
   * map and on a cancelled context (cancelled), and otherwise returns a fresh
   * NRGBA image over imgRect whose data-map positions hold their cell's
   * palette colour and whose other pixels are zero.
   */
  method GetImage(imgRect: Rect, input: ColorInput, cancelled: bool, pow: Pow)
    returns (err: Option<ProviderError>, output: array2?<Color>)
    requires imgRect.WellFormed()
    ensures input.zoom > MaxZoom ==> err == Some(ZoomNotSupported(input.zoom)) && output == null
    ensures input.zoom <= MaxZoom && |input.dataMap| == 0 ==> err == Some(EmptyDataMap) && output == null
    ensures input.zoom <= MaxZoom && |input.dataMap| > 0 && cancelled ==> err == Some(Cancelled) && output == null
    ensures input.zoom <= MaxZoom && |input.dataMap| > 0 && !cancelled ==>
      err == None && output != null && fresh(output) &&
      output.Length0 == imgRect.Height() && output.Length1 == imgRect.Width() &&
      ImageDone(output, imgRect, input.dataMap, Painter(pow), Blank)
  {
    if input.zoom > MaxZoom {
      return Some(ZoomNotSupported(input.zoom)), null;
    }
    if |input.dataMap| == 0 {
      return Some(EmptyDataMap), null;
    }
    if cancelled {
      return Some(Cancelled), null;
    }
    var dataMap := input.dataMap;
    var image := new Color[imgRect.Height(), imgRect.Width()]((_, _) => Blank);
    StartImage(image, imgRect, dataMap, Painter(pow), Blank);
    var y := 0;
    while y < |dataMap|
      invariant 0 <= y <= |dataMap|
      invariant ImageAfter(image, imgRect, dataMap, Painter(pow), Blank, y, 0)
    {
      var row := dataMap[y];
      var x := 0;
      while x < |row|
        invariant 0 <= x <= |row|
        invariant ImageAfter(image, imgRect, dataMap, Painter(pow), Blank, y, x)
      {
        var cell := row[x];
        var elevation := cell.elevation;
        var c: Color;
        PainterOf(pow, cell);
        if !cell.isLand {
          if !cell.isIce {
            c := GetColorFromPalette(elevation, WaterPalette, pow);
          } else {
            c := GetColorFromPalette(elevation, PolarPalette, pow);
          }
          SetNext(image, imgRect, dataMap, Painter(pow), Blank, x, y, c);
          x := x + 1;
          continue;
        }
        if cell.isIce {
          c := GetColorFromPalette(elevation, PolarPalette, pow);
          SetNext(image, imgRect, dataMap, Painter(pow), Blank, x, y, c);
          x := x + 1;
          continue;
        }
        c := GetColorFromPalette(elevation, NormalPalette, pow);
        SetNext(image, imgRect, dataMap, Painter(pow), Blank, x, y, c);
        x := x + 1;
      }
      NextDataRow(image, imgRect, dataMap, Painter(pow), Blank, y);
      y := y + 1;
    }
    EndImage(image, imgRect, dataMap, Painter(pow), Blank);
    return None, image;
  }
}
