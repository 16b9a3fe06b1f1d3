/**
 * The colour layer's shared types (colors/palette.go, colors/providers.go):
 * an 8-bit colour, elevation-keyed colour stops and palettes, the values a
 * DataCell reports, the provider input, the errors providers return, and the
 * rectangle-backed output images with the rule for filling them from a data
 * map.
 */
module Colors {
  import opened Numeric

  /** Color: four 8-bit channels; its RGBA() copies them into an NRGBA pixel unchanged. */
  datatype Color = Color(r: Byte, g: Byte, b: Byte, a: Byte)

  /** The zero value of Color, which is also a fresh NRGBA image's pixel. */
  const Blank := Color(0, 0, 0, 0)

  datatype ColorStop = ColorStop(elevation: real, color: Color)

  datatype ColorPalette = ColorPalette(stops: seq<ColorStop>)

  /** Every stop sits strictly above all earlier ones. */
  predicate StrictlyIncreasing(stops: seq<ColorStop>) {
    forall i, j :: 0 <= i < j < |stops| ==> stops[i].elevation < stops[j].elevation
  }

  /** The neighbour-by-neighbour form from stop i on, which a constant palette can be checked against one stop at a time. */
  predicate IncreasingFrom(stops: seq<ColorStop>, i: nat)
    decreases |stops| - i
  {
    i + 1 >= |stops| || (stops[i].elevation < stops[i + 1].elevation && IncreasingFrom(stops, i + 1))
  }

  /** Neighbour-by-neighbour increase from stop i on gives increase between any two of those stops. */
  lemma {:induction false} IncreasingFromGivesStrict(stops: seq<ColorStop>, i: nat)
    requires IncreasingFrom(stops, i)
    ensures forall a, b :: i <= a < b < |stops| ==> stops[a].elevation < stops[b].elevation
    decreases |stops| - i
  {
    if i + 1 < |stops| {
      IncreasingFromGivesStrict(stops, i + 1);
      forall b | i + 1 < b < |stops|
        ensures stops[i].elevation < stops[b].elevation
      {
        assert stops[i + 1].elevation < stops[b].elevation;
      }
    }
  }

  /**
   * The values a DataCell reports. The interface documents the three factors
   * as lying in [0, 1]; the model does not assume it.
   */
  datatype DataCell = DataCell(
    elevation: real,
    isLand: bool,
    isIce: bool,
    desertFactor: real,
    polarFactor: real,
    aquatorFactor: real)

  datatype ColorInput = ColorInput(zoom: Uint32, dataMap: seq<seq<DataCell>>)

  /** The errors a provider returns before drawing anything. */
  datatype ProviderError = ZoomNotSupported(zoom: Uint32) | EmptyDataMap | Cancelled

  /** image.Rectangle: Min inclusive, Max exclusive. */
  datatype Rect = Rect(minX: int, minY: int, maxX: int, maxY: int) {
    /** Non-negative width and height, as image.NewNRGBA and image.NewGray16 demand. */
    predicate WellFormed() {
      minX <= maxX && minY <= maxY
    }

    function Width(): nat
      requires WellFormed()
    {
      maxX - minX
    }

    function Height(): nat
      requires WellFormed()
    {
      maxY - minY
    }

    /** image.Point{x, y}.In(r): the positions Set writes. */
    predicate Contains(x: int, y: int) {
      minX <= x < maxX && minY <= y < maxY
    }
  }

  /** (x, y) is a position of the data map: row y exists and has an x-th cell. */
  predicate InDataMap(dataMap: seq<seq<DataCell>>, x: int, y: int) {
    0 <= y < |dataMap| && 0 <= x < |dataMap[y]|
  }

  /**
   * The finished output pixel at image position (x, y) of a provider that
   * Sets paint(cell) at every data-map position: the painted value there, the
   * zero pixel everywhere else.
   */
  function PaintedAt<T>(dataMap: seq<seq<DataCell>>, paint: DataCell -> T, zero: T, x: int, y: int): (p: T)
    ensures !InDataMap(dataMap, x, y) ==> p == zero
    ensures InDataMap(dataMap, x, y) ==> p == paint(dataMap[y][x])
  {
    if InDataMap(dataMap, x, y) then paint(dataMap[y][x]) else zero
  }

  /** The output pixel while the data map is being walked, before position (col, row). */
  function PartialAt<T>(dataMap: seq<seq<DataCell>>, paint: DataCell -> T, zero: T, row: int, col: int, x: int, y: int): T {
    if y < row || (y == row && x < col) then PaintedAt(dataMap, paint, zero, x, y) else zero
  }

  /** The image array (indexed [y - minY, x - minX]) shows the walk up to (col, row). */
  ghost predicate ImageAfter<T>(out: array2<T>, rect: Rect, dataMap: seq<seq<DataCell>>, paint: DataCell -> T, zero: T, row: int, col: int)
    reads out
  {
    forall py, px :: 0 <= py < out.Length0 && 0 <= px < out.Length1 ==>
      out[py, px] == PartialAt(dataMap, paint, zero, row, col, px + rect.minX, py + rect.minY)
  }

  /** The image array shows the finished walk. */
  ghost predicate ImageDone<T>(out: array2<T>, rect: Rect, dataMap: seq<seq<DataCell>>, paint: DataCell -> T, zero: T)
    reads out
  {
    forall py, px :: 0 <= py < out.Length0 && 0 <= px < out.Length1 ==>
      out[py, px] == PaintedAt(dataMap, paint, zero, px + rect.minX, py + rect.minY)
  }

  lemma StartImage<T>(out: array2<T>, rect: Rect, dataMap: seq<seq<DataCell>>, paint: DataCell -> T, zero: T)
    requires forall py, px :: 0 <= py < out.Length0 && 0 <= px < out.Length1 ==> out[py, px] == zero
    ensures ImageAfter(out, rect, dataMap, paint, zero, 0, 0)
  {
  }

  /**
   * Set on an image over rect: writes c at (x, y) when the rectangle holds
   * that position and changes nothing otherwise.
   */
  method Set<T>(out: array2<T>, rect: Rect, x: int, y: int, c: T)
    requires rect.WellFormed() && out.Length0 == rect.Height() && out.Length1 == rect.Width()
    modifies out
    ensures forall py, px :: 0 <= py < out.Length0 && 0 <= px < out.Length1 ==>
      out[py, px] == (if px + rect.minX == x && py + rect.minY == y then c else old(out[py, px]))
  {
    if rect.Contains(x, y) {
      out[y - rect.minY, x - rect.minX] := c;
    }
  }

  /** Set of the pixel the walk has reached, with paint's value for its cell: the walk moves one position on. */
  method SetNext<T>(out: array2<T>, rect: Rect, dataMap: seq<seq<DataCell>>, paint: DataCell -> T, zero: T, x: int, y: int, c: T)
    requires rect.WellFormed() && out.Length0 == rect.Height() && out.Length1 == rect.Width()
    requires InDataMap(dataMap, x, y) && c == paint(dataMap[y][x])
    requires ImageAfter(out, rect, dataMap, paint, zero, y, x)
    modifies out
    ensures ImageAfter(out, rect, dataMap, paint, zero, y, x + 1)
  {
    Set(out, rect, x, y, c);
  }

  lemma NextDataRow<T>(out: array2<T>, rect: Rect, dataMap: seq<seq<DataCell>>, paint: DataCell -> T, zero: T, y: int)
    requires 0 <= y < |dataMap|
    requires ImageAfter(out, rect, dataMap, paint, zero, y, |dataMap[y]|)
    ensures ImageAfter(out, rect, dataMap, paint, zero, y + 1, 0)
  {
  }

  lemma EndImage<T>(out: array2<T>, rect: Rect, dataMap: seq<seq<DataCell>>, paint: DataCell -> T, zero: T)
    requires ImageAfter(out, rect, dataMap, paint, zero, |dataMap|, 0)
    ensures ImageDone(out, rect, dataMap, paint, zero)
  {
  }
}
