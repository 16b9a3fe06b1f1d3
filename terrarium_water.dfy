/**
 * colors/terrarium/water.go: WaterTerrariumProfile.GetColor, which keeps the
 * elevation of water cells and flattens land to sea level.
 */
module TerrariumWater {
  import opened Colors
  import opened TerrariumCodec

  const MaxZoom := 14

  /**
   * The colour of one cell: land is ZeroElevation; any other cell is its
   * encoded elevation, whether or not it is ice (the ice colour is written
   * and then always overwritten).
   */
  function WaterColor(cell: DataCell): (c: Color)
    ensures cell.isLand ==> c == ZeroElevation
    ensures !cell.isLand ==> c == Encode(cell.elevation)
  {
    if cell.isLand then ZeroElevation
    else if cell.elevation == 0.0 then
      ZeroElevationEncodesZero(); ZeroElevation
    else Encode(cell.elevation)
  }

  /** The ice flag never shows in the output. */
  lemma IceIgnored(cell: DataCell)
    ensures WaterColor(cell) == WaterColor(cell.(isIce := !cell.isIce))
  {
  }

  /**
   * GetColor: one colour per cell, row by row in the data map's shape. It
   * reads neither the zoom nor the context and never fails.
   */
  method GetColor(input: ColorInput) returns (terrariumColors: seq<seq<Color>>)
    ensures |terrariumColors| == |input.dataMap|
    ensures forall i :: 0 <= i < |input.dataMap| ==> |terrariumColors[i]| == |input.dataMap[i]|
    ensures forall i, j :: 0 <= i < |input.dataMap| && 0 <= j < |input.dataMap[i]| ==>
      terrariumColors[i][j] == WaterColor(input.dataMap[i][j])
  {
    var dataMap := input.dataMap;
    terrariumColors := seq(|dataMap|, _ => []);
    var i := 0;
    while i < |dataMap|
      invariant 0 <= i <= |dataMap| && |terrariumColors| == |dataMap|
      invariant forall i' :: 0 <= i' < i ==> |terrariumColors[i']| == |dataMap[i']|
      invariant forall i', j :: 0 <= i' < i && 0 <= j < |dataMap[i']| ==> terrariumColors[i'][j] == WaterColor(dataMap[i'][j])
    {
      var row := dataMap[i];
      var out := seq(|row|, _ => Blank);
      var j := 0;
      while j < |row|
        invariant 0 <= j <= |row| && |out| == |row|
        invariant forall j' :: 0 <= j' < j ==> out[j'] == WaterColor(row[j'])
      {
        var cell := row[j];
        if cell.isLand {
          out := out[j := ZeroElevation];
          j := j + 1;
          continue;
        }
        if cell.isIce {
          out := out[j := IceElevation];
        }
        if cell.elevation == 0.0 {
          out := out[j := ZeroElevation];
        } else {
          out := out[j := Encode(cell.elevation)];
        }
        j := j + 1;
      }
      terrariumColors := terrariumColors[i := out];
      i := i + 1;
    }
  }
}
