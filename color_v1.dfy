/**
 * colors/color_v1/color.go: ColorV1Provider.GetColor, the first colour
 * scheme. Land elevations are scaled by a latitude-dependent snow threshold,
 * and polar and desert cells blend their palette with the normal one.
 * math.Pow is a parameter of the model.
 */
module ColorV1 {
  import opened Numeric
  import opened Outcomes
  import opened Colors
  import opened ColorHelpers

  const MaxZoom: Uint32 := 13

  function Stop(e: real, r: Byte, g: Byte, b: Byte): ColorStop {
    ColorStop(e, Color(r, g, b, 255))
  }

  const WaterPalette := ColorPalette([
    Stop(-10000.0, 65, 146, 208), Stop(-1000.0, 87, 172, 230), Stop(-500.0, 96, 178, 235),
    Stop(-200.0, 109, 187, 239), Stop(-80.0, 125, 197, 245), Stop(-40.0, 170, 218, 252),
    Stop(-20.0, 173, 216, 247), Stop(0.0, 191, 228, 252)])

  const NormalPalette := ColorPalette([
    Stop(0.0, 172, 208, 165), Stop(50.0, 148, 191, 139), Stop(100.0, 148, 191, 139),
    Stop(300.0, 168, 198, 143), Stop(600.0, 189, 204, 150), Stop(1000.0, 195, 182, 157),
    Stop(1500.0, 168, 154, 134), Stop(2000.0, 148, 144, 139), Stop(2500.0, 130, 115, 95),
    Stop(3000.0, 240, 240, 240), Stop(4000.0, 255, 255, 255)])

  const PolarPalette := ColorPalette([
    Stop(-500.0, 242, 248, 250), Stop(0.0, 235, 246, 250), Stop(50.0, 228, 240, 245),
    Stop(200.0, 225, 234, 237), Stop(400.0, 211, 221, 222), Stop(700.0, 218, 228, 230),
    Stop(1000.0, 217, 221, 222), Stop(1500.0, 227, 231, 232), Stop(2000.0, 233, 238, 240),
    Stop(2500.0, 237, 243, 245), Stop(3000.0, 245, 251, 252)])

  const DesertPalette := ColorPalette([
    Stop(0.0, 235, 230, 185), Stop(300.0, 209, 199, 159), Stop(600.0, 189, 170, 134),
    Stop(1500.0, 168, 154, 134), Stop(2000.0, 148, 144, 139), Stop(2500.0, 130, 115, 95),
    Stop(3000.0, 240, 240, 240), Stop(4000.0, 255, 255, 255)])

  /** The stops of each palette are strictly increasing, as the segment search needs. */
  lemma WaterPaletteIncreasing()
    ensures StrictlyIncreasing(WaterPalette.stops)
  {
    var s := WaterPalette.stops;
    assert IncreasingFrom(s, 7) && IncreasingFrom(s, 6) && IncreasingFrom(s, 5);
    assert IncreasingFrom(s, 4) && IncreasingFrom(s, 3) && IncreasingFrom(s, 2);
    assert IncreasingFrom(s, 1) && IncreasingFrom(s, 0);
    IncreasingFromGivesStrict(s, 0);
  }

  lemma NormalPaletteIncreasing()
    ensures StrictlyIncreasing(NormalPalette.stops)
  {
    var s := NormalPalette.stops;
    assert IncreasingFrom(s, 10) && IncreasingFrom(s, 9) && IncreasingFrom(s, 8);
    assert IncreasingFrom(s, 7) && IncreasingFrom(s, 6) && IncreasingFrom(s, 5);
    assert IncreasingFrom(s, 4) && IncreasingFrom(s, 3) && IncreasingFrom(s, 2);
    assert IncreasingFrom(s, 1) && IncreasingFrom(s, 0);
    IncreasingFromGivesStrict(s, 0);
  }

  lemma PolarPaletteIncreasing()
    ensures StrictlyIncreasing(PolarPalette.stops)
  {
    var s := PolarPalette.stops;
    assert IncreasingFrom(s, 10) && IncreasingFrom(s, 9) && IncreasingFrom(s, 8);
    assert IncreasingFrom(s, 7) && IncreasingFrom(s, 6) && IncreasingFrom(s, 5);
    assert IncreasingFrom(s, 4) && IncreasingFrom(s, 3) && IncreasingFrom(s, 2);
    assert IncreasingFrom(s, 1) && IncreasingFrom(s, 0);
    IncreasingFromGivesStrict(s, 0);
  }

  lemma DesertPaletteIncreasing()
    ensures StrictlyIncreasing(DesertPalette.stops)
  {
    var s := DesertPalette.stops;
    assert IncreasingFrom(s, 7) && IncreasingFrom(s, 6) && IncreasingFrom(s, 5);
    assert IncreasingFrom(s, 4) && IncreasingFrom(s, 3) && IncreasingFrom(s, 2);
    assert IncreasingFrom(s, 1) && IncreasingFrom(s, 0);
    IncreasingFromGivesStrict(s, 0);
  }

  /** The snow-threshold factor max(0.05, (aquatorFactor / 0.7)^1.5): never below 0.05. */
  function SnowThresholdFactor(aquatorFactor: real, pow: Pow): (s: real)
    ensures s >= 0.05
    ensures s == 0.05 || s == pow(aquatorFactor / 0.7, 1.5)
  {
    Max(0.05, pow(aquatorFactor / 0.7, 1.5))
  }

  lemma ProductWithin(d: real, f: real)
    requires d >= 0.0 && 0.0 <= f <= 1.0
    ensures 0.0 <= d * f <= d
  {
    assert d - d * f == d * (1.0 - f);
    NonNeg3(d, 1.0 - f);
    NonNeg3(d, f);
  }

  /** The weighted mix n (1 - f) + p f of two channel values. */
  function Mix(n: real, p: real, f: real): real {
    n * (1.0 - f) + p * f
  }

  /** A convex combination of n and p lies between them. */
  lemma MixWithin(n: real, p: real, f: real)
    requires 0.0 <= f <= 1.0
    ensures n <= p ==> n <= Mix(n, p, f) <= p
    ensures p <= n ==> p <= Mix(n, p, f) <= n
  {
    var d := p - n;
    assert Mix(n, p, f) == n + d * f;
    if n <= p {
      ProductWithin(d, f);
    } else {
      ProductWithin(-d, f);
      assert (-d) * f == -(d * f);
    }
  }

  /**
   * One blended channel uint8(math.Round(n (1 - f) + p f)). For f in [0, 1]
   * it lies between n and p, so the conversion never wraps.
   */
  function BlendChannel(n: Byte, p: Byte, f: real): (b: Byte)
    ensures 0.0 <= f <= 1.0 && n <= p ==> n <= b <= p
    ensures 0.0 <= f <= 1.0 && p <= n ==> p <= b <= n
    ensures f == 0.0 ==> b == n
    ensures f == 1.0 ==> b == p
  {
    var x := Mix(n as real, p as real, f);
    if 0.0 <= f <= 1.0 then
      MixWithin(n as real, p as real, f);
      if n <= p then
        RoundBetween(x, n, p);
        Wrap8(Round(x))
      else
        RoundBetween(x, p, n);
        Wrap8(Round(x))
    else Wrap8(Round(x))
  }

  /** Channel-wise blend of the normal colour towards another by weight f. */
  function BlendColors(normal: Color, other: Color, f: real): Color {
    Color(BlendChannel(normal.r, other.r, f), BlendChannel(normal.g, other.g, f),
          BlendChannel(normal.b, other.b, f), BlendChannel(normal.a, other.a, f))
  }

  /** c lies channel by channel between a and b. */
  predicate Between(c: Color, a: Color, b: Color) {
    Min(a.r as real, b.r as real) <= c.r as real <= Max(a.r as real, b.r as real) &&
    Min(a.g as real, b.g as real) <= c.g as real <= Max(a.g as real, b.g as real) &&
    Min(a.b as real, b.b as real) <= c.b as real <= Max(a.b as real, b.b as real) &&
    Min(a.a as real, b.a as real) <= c.a as real <= Max(a.a as real, b.a as real)
  }

  /** A blend with weight in [0, 1] stays between the two colours in every channel. */
  lemma BlendBetween(normal: Color, other: Color, f: real)
    requires 0.0 <= f <= 1.0
    ensures Between(BlendColors(normal, other, f), normal, other)
  {
  }

  /** How a cell is coloured: from one palette, or the normal palette blended towards another by a weight. */
  datatype Pick = Plain(palette: ColorPalette) | Mixed(other: ColorPalette, weight: real)

  /** The palettes a pick uses have stops. */
  predicate Usable(pick: Pick) {
    match pick
    case Plain(palette) => |palette.stops| > 0
    case Mixed(other, _) => |other.stops| > 0
  }

  /** The loop body's decision tree. A blend weight is positive and never exactly 1. */
  function PickFor(cell: DataCell): (pick: Pick)
    ensures Usable(pick)
    ensures pick.Mixed? ==> pick.weight > 0.0 && pick.weight != 1.0
  {
    if !cell.isLand then
      if !cell.isIce then Plain(WaterPalette) else Plain(PolarPalette)
    else if cell.polarFactor == 1.0 then Plain(PolarPalette)
    else if cell.polarFactor > 0.0 then
      if cell.isIce then Plain(PolarPalette) else Mixed(PolarPalette, cell.polarFactor)
    else if cell.desertFactor == 1.0 then Plain(DesertPalette)
    else if cell.desertFactor > 0.0 then Mixed(DesertPalette, cell.desertFactor)
    else if cell.isIce then Plain(PolarPalette)
    else Plain(NormalPalette)
  }

  /** The elevation a cell is looked up at: land elevations are scaled by the snow-threshold factor. */
  function LookupElevation(cell: DataCell, pow: Pow): real {
    if cell.isLand then cell.elevation * SnowThresholdFactor(cell.aquatorFactor, pow) else cell.elevation
  }

  function Render(e: real, pick: Pick, pow: Pow): Color
    requires Usable(pick)
  {
    match pick
    case Plain(palette) => PaletteColor(e, palette, pow)
    case Mixed(other, f) => BlendColors(PaletteColor(e, NormalPalette, pow), PaletteColor(e, other, pow), f)
  }

  /** The colour of one cell. */
  function CellColor(cell: DataCell, pow: Pow): Color {
    Render(LookupElevation(cell, pow), PickFor(cell), pow)
  }

  /** Water cells ignore every factor: the water palette, or the polar one for ice, at the raw elevation. */
  lemma WaterCells(cell: DataCell)
    requires !cell.isLand
    ensures PickFor(cell) == Plain(if cell.isIce then PolarPalette else WaterPalette)
  {
  }

  /**
   * A fully polar land cell, and a partly polar ice cell, use the polar
   * palette; a partly polar cell that is not ice blends normal towards polar
   * by the polar factor.
   */
  lemma PolarCells(cell: DataCell)
    requires cell.isLand && cell.polarFactor > 0.0
    ensures cell.polarFactor == 1.0 || cell.isIce ==> PickFor(cell) == Plain(PolarPalette)
    ensures cell.polarFactor != 1.0 && !cell.isIce ==> PickFor(cell) == Mixed(PolarPalette, cell.polarFactor)
  {
  }

  /** The desert factor matters only where the polar factor is not positive. */
  lemma DesertOnlyWithoutPolar(cell: DataCell, desertFactor: real)
    requires cell.polarFactor > 0.0
    ensures PickFor(cell) == PickFor(cell.(desertFactor := desertFactor))
  {
  }

  /** With neither a polar nor a desert factor, ice uses the polar palette and other land the normal one. */
  lemma PlainLandCells(cell: DataCell)
    requires cell.isLand && cell.polarFactor <= 0.0 && cell.desertFactor <= 0.0
    ensures PickFor(cell) == Plain(if cell.isIce then PolarPalette else NormalPalette)
  {
  }

  /** A blended cell lies channel by channel between its normal colour and its other palette's colour. */
  lemma MixedBetween(cell: DataCell, pow: Pow)
    requires PickFor(cell).Mixed? && PickFor(cell).weight <= 1.0
    ensures Between(CellColor(cell, pow), PaletteColor(LookupElevation(cell, pow), NormalPalette, pow),
                    PaletteColor(LookupElevation(cell, pow), PickFor(cell).other, pow))
  {
    var e, pick := LookupElevation(cell, pow), PickFor(cell);
    BlendBetween(PaletteColor(e, NormalPalette, pow), PaletteColor(e, pick.other, pow), pick.weight);
  }

  /**
   * GetColor. It fails, in this order, on a zoom above 13, on an empty data
   * map and on a cancelled context (cancelled), returning no colours; it
   * otherwise returns one colour per cell in the data map's shape.
   */
  method GetColor(input: ColorInput, cancelled: bool, pow: Pow)
    returns (err: Option<ProviderError>, colorsOutput: seq<seq<Color>>)
    ensures input.zoom > MaxZoom ==> err == Some(ZoomNotSupported(input.zoom))
    ensures input.zoom <= MaxZoom && |input.dataMap| == 0 ==> err == Some(EmptyDataMap)
    ensures input.zoom <= MaxZoom && |input.dataMap| > 0 && cancelled ==> err == Some(Cancelled)
    ensures err.Some? ==> colorsOutput == []
    ensures input.zoom <= MaxZoom && |input.dataMap| > 0 && !cancelled ==> err == None
    ensures err == None ==> |colorsOutput| == |input.dataMap|
    ensures err == None ==> forall i :: 0 <= i < |input.dataMap| ==> |colorsOutput[i]| == |input.dataMap[i]|
    ensures err == None ==> forall i, j :: 0 <= i < |input.dataMap| && 0 <= j < |input.dataMap[i]| ==>
      colorsOutput[i][j] == CellColor(input.dataMap[i][j], pow)
  {
    if input.zoom > MaxZoom {
      return Some(ZoomNotSupported(input.zoom)), [];
    }
    if |input.dataMap| == 0 {
      return Some(EmptyDataMap), [];
    }
    if cancelled {
      return Some(Cancelled), [];
    }
    var dataMap := input.dataMap;
    colorsOutput := seq(|dataMap|, _ => []);
    var i := 0;
    while i < |dataMap|
      invariant 0 <= i <= |dataMap| && |colorsOutput| == |dataMap|
      invariant forall i' :: 0 <= i' < i ==> |colorsOutput[i']| == |dataMap[i']|
      invariant forall i', j :: 0 <= i' < i && 0 <= j < |dataMap[i']| ==> colorsOutput[i'][j] == CellColor(dataMap[i'][j], pow)
    {
      var row := dataMap[i];
      var out := seq(|row|, _ => Blank);
      var j := 0;
      while j < |row|
        invariant 0 <= j <= |row| && |out| == |row|
        invariant forall j' :: 0 <= j' < j ==> out[j'] == CellColor(row[j'], pow)
      {
        var cell := row[j];
        var c := ColorOfCell(cell, pow);
        out := out[j := c];
        j := j + 1;
      }
      colorsOutput := colorsOutput[i := out];
      i := i + 1;
    }
    err := None;
  }

  /** The loop body of GetColor for one cell, with its early exits. */
  method ColorOfCell(cell: DataCell, pow: Pow) returns (c: Color)
    ensures c == CellColor(cell, pow)
  {
    var elevation := cell.elevation;
    var pick := PickFor(cell);
    if !cell.isLand {
      assert LookupElevation(cell, pow) == elevation;
      if !cell.isIce {
        assert pick == Plain(WaterPalette);
        c := GetColorFromPalette(elevation, WaterPalette, pow);
      } else {
        assert pick == Plain(PolarPalette);
        c := GetColorFromPalette(elevation, PolarPalette, pow);
      }
      return;
    }
    elevation := elevation * SnowThresholdFactor(cell.aquatorFactor, pow);
    assert LookupElevation(cell, pow) == elevation;
    var polarFactor := cell.polarFactor;
    if polarFactor == 1.0 {
      assert pick == Plain(PolarPalette);
      c := GetColorFromPalette(elevation, PolarPalette, pow);
      return;
    } else if polarFactor > 0.0 {
      var polarColor := GetColorFromPalette(elevation, PolarPalette, pow);
      if cell.isIce {
        assert pick == Plain(PolarPalette);
        return polarColor;
      }
      assert pick == Mixed(PolarPalette, polarFactor);
      var normalColor := GetColorFromPalette(elevation, NormalPalette, pow);
      return BlendColors(normalColor, polarColor, polarFactor);
    }
    var desertFactor := cell.desertFactor;
    if desertFactor == 1.0 {
      assert pick == Plain(DesertPalette);
      c := GetColorFromPalette(elevation, DesertPalette, pow);
      return;
    } else if desertFactor > 0.0 {
      assert pick == Mixed(DesertPalette, desertFactor);
      var normalColor := GetColorFromPalette(elevation, NormalPalette, pow);
      var desertColor := GetColorFromPalette(elevation, DesertPalette, pow);
      return BlendColors(normalColor, desertColor, desertFactor);
    }
    if cell.isIce {
      assert pick == Plain(PolarPalette);
      c := GetColorFromPalette(elevation, PolarPalette, pow);
      return;
    }
    assert pick == Plain(NormalPalette);
    c := GetColorFromPalette(elevation, NormalPalette, pow);
  }
}
