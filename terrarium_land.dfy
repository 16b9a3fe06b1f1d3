/**
 * colors/terrarium/land.go: LandTerrariumProfile.GetColor, which keeps the
 * elevation of land cells and flattens everything else to a sentinel.
 */
module TerrariumLand {
  import opened Colors
  import opened TerrariumCodec

  const MaxZoom := 14

  /**
   * The colour of one cell: water is IceElevation or ZeroElevation by its ice
   * flag; land is its encoded elevation (0 m written as ZeroElevation, which
   * is the same colour).
   */
  function LandColor(cell: DataCell): (c: Color)
    ensures !cell.isLand && cell.isIce ==> c == IceElevation
    ensures !cell.isLand && !cell.isIce ==> c == ZeroElevation
    ensures cell.isLand ==> c == Encode(cell.elevation)
  {
    if !cell.isLand then
      if cell.isIce then IceElevation else ZeroElevation
    else if cell.elevation == 0.0 then
      ZeroElevationEncodesZero(); ZeroElevation
    else Encode(cell.elevation)
  }

  /**
   * GetColor: one colour per cell, row by row in the data map's shape. It
   * reads neither the zoom nor the context and never fails.
   */
  method GetColor(input: ColorInput) returns (terrariumColors: seq<seq<Color>>)
    ensures |terrariumColors| == |input.dataMap|
    ensures forall i :: 0 <= i < |input.dataMap| ==> |terrariumColors[i]| == |input.dataMap[i]|
    ensures forall i, j :: 0 <= i < |input.dataMap| && 0 <= j < |input.dataMap[i]| ==>
      terrariumColors[i][j] == LandColor(input.dataMap[i][j])
  {
    var dataMap := input.dataMap;
    terrariumColors := seq(|dataMap|, _ => []);
    var i := 0;
    while i < |dataMap|
      invariant 0 <= i <= |dataMap| && |terrariumColors| == |dataMap|
      invariant forall i' :: 0 <= i' < i ==> |terrariumColors[i']| == |dataMap[i']|
      invariant forall i', j :: 0 <= i' < i && 0 <= j < |dataMap[i']| ==> terrariumColors[i'][j] == LandColor(dataMap[i'][j])
    {
      var row := dataMap[i];
      var out := seq(|row|, _ => Blank);
      var j := 0;
      while j < |row|
        invariant 0 <= j <= |row| && |out| == |row|
        invariant forall j' :: 0 <= j' < j ==> out[j'] == LandColor(row[j'])
      {
        var cell := row[j];
        if !cell.isLand {
          if cell.isIce {
            out := out[j := IceElevation];
          } else {
            out := out[j := ZeroElevation];
          }
          j := j + 1;
          continue;
        }
        if cell.elevation == 0.0 {
          out := out[j := ZeroElevation];
        } else {
          out := out[j := Encode(cell.elevation)];
        }
        j := j + 1;
      }
      terrariumColors := terrariumColors[i := out];
      i := i + 1;
    }
  }
}
