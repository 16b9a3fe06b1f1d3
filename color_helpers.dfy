/**
 * colors/helpers.go: GetColorFromPalette, the palette lookup every colour
 * provider uses. Elevations at or beyond the end stops take those stops'
 * colours; anything between finds its segment, eases the position within it
 * with a smoothstep and blends the two stop colours channel by channel in
 * gamma space. math.Pow is a parameter of the model.
 */
module ColorHelpers {
  import opened Numeric
  import opened Colors

  /** math.Pow(x, y). */
  type Pow = (real, real) -> real

  const Gamma: real := 2.2

  /** Segment i of the stops holds e: stops[i] <= e < stops[i + 1]. */
  predicate InSegment(e: real, stops: seq<ColorStop>, i: int) {
    0 <= i < |stops| - 1 && stops[i].elevation <= e < stops[i + 1].elevation
  }

  /**
   * The first segment holding e. One always exists once e is at or above the
   * first stop and below the last, whatever order the stops are in.
   */
  function FirstSegment(e: real, stops: seq<ColorStop>): (k: nat)
    requires |stops| >= 2 && stops[0].elevation <= e < stops[|stops| - 1].elevation
    ensures InSegment(e, stops, k)
    ensures forall j :: 0 <= j < k ==> !InSegment(e, stops, j)
    decreases |stops|
  {
    if InSegment(e, stops, 0) then 0
    else
      var k' := FirstSegment(e, stops[1..]);
      assert forall j :: 0 < j < k' + 1 ==> !InSegment(e, stops, j) by {
        forall j | 0 < j < k' + 1
          ensures !InSegment(e, stops, j)
        {
          assert !InSegment(e, stops[1..], j - 1);
        }
      }
      k' + 1
  }

  /** With strictly increasing stops the segment holding e is unique. */
  lemma UniqueSegment(e: real, stops: seq<ColorStop>, i: int)
    requires StrictlyIncreasing(stops) && InSegment(e, stops, i)
    ensures forall j :: InSegment(e, stops, j) ==> j == i
    ensures i == FirstSegment(e, stops)
  {
    forall j | InSegment(e, stops, j)
      ensures j == i
    {
    }
  }

  /**
   * The search loop: the stops around e, taken from the first segment that
   * holds it. The zero-valued stops the loop starts from are never returned.
   */
  method FindSegment(e: real, stops: seq<ColorStop>) returns (lowStop: ColorStop, highStop: ColorStop)
    requires |stops| >= 2 && stops[0].elevation < e < stops[|stops| - 1].elevation
    ensures lowStop == stops[FirstSegment(e, stops)] && highStop == stops[FirstSegment(e, stops) + 1]
  {
    ghost var k := FirstSegment(e, stops);
    lowStop, highStop := ColorStop(0.0, Blank), ColorStop(0.0, Blank);
    var i := 0;
    while i < |stops| - 1
      invariant 0 <= i <= k
      invariant forall j :: 0 <= j < i ==> !InSegment(e, stops, j)
    {
      if e >= stops[i].elevation && e < stops[i + 1].elevation {
        assert InSegment(e, stops, i);
        lowStop, highStop := stops[i], stops[i + 1];
        break;
      }
      i := i + 1;
    }
  }

  /** Where e sits between the two stops of its segment, from 0 at the low stop towards 1 at the high one. */
  function RawFactor(e: real, lowStop: ColorStop, highStop: ColorStop): (f: real)
    requires lowStop.elevation <= e < highStop.elevation
    ensures 0.0 <= f < 1.0
    ensures e == lowStop.elevation ==> f == 0.0
  {
    var width := highStop.elevation - lowStop.elevation;
    var f := (e - lowStop.elevation) / width;
    assert f >= 0.0;
    assert f * width == e - lowStop.elevation;
    if f >= 1.0 then
      NonNeg3(f - 1.0, width);
      assert false; f
    else f
  }

  /** The smoothstep t^2 (3 - 2t): it maps [0, 1] into [0, 1] and fixes both ends. */
  function Smoothstep(t: real): (s: real)
    ensures 0.0 <= t <= 1.0 ==> 0.0 <= s <= 1.0
    ensures t == 0.0 ==> s == 0.0
    ensures t == 1.0 ==> s == 1.0
  {
    var s := t * t * (3.0 - 2.0 * t);
    if 0.0 <= t <= 1.0 then
      SmoothstepBounds(t); s
    else s
  }

  lemma SmoothstepBounds(t: real)
    requires 0.0 <= t <= 1.0
    ensures 0.0 <= t * t * (3.0 - 2.0 * t) <= 1.0
  {
    assert 1.0 - t * t * (3.0 - 2.0 * t) == (1.0 - t) * (1.0 - t) * (1.0 + 2.0 * t);
    NonNeg3(t * t, 3.0 - 2.0 * t);
    NonNeg3((1.0 - t) * (1.0 - t), 1.0 + 2.0 * t);
  }

  lemma NonNeg3(a: real, b: real)
    requires a >= 0.0 && b >= 0.0
    ensures a * b >= 0.0
  {
  }

  /** The interpolation weight: the eased raw factor, clamped to [0, 1] (a no-op inside a segment). */
  function Weight(e: real, lowStop: ColorStop, highStop: ColorStop): (w: real)
    requires lowStop.elevation <= e < highStop.elevation
    ensures 0.0 <= w <= 1.0
    ensures w == Smoothstep(RawFactor(e, lowStop, highStop))
  {
    Clamp(Smoothstep(RawFactor(e, lowStop, highStop)), 0.0, 1.0)
  }

  /** One channel blended in gamma space: (w hi^g + (1 - w) lo^g)^(1/g) * 255, channels scaled to [0, 1]. */
  function GammaBlend(w: real, lo: Byte, hi: Byte, pow: Pow): real {
    pow(w * pow(hi as real / 255.0, Gamma) + (1.0 - w) * pow(lo as real / 255.0, Gamma), 1.0 / Gamma) * 255.0
  }

  /**
   * uint8(math.Round(math.Max(0, math.Min(255, x)))): the clamp keeps the
   * conversion from wrapping, so the byte is the nearest to x within [0, 255].
   */
  function ToChannel(x: real): (b: Byte)
    ensures x <= 0.0 ==> b == 0
    ensures x >= 255.0 ==> b == 255
    ensures 0.0 <= x <= 255.0 ==> x - 0.5 <= b as real <= x + 0.5
  {
    var c := Clamp(x, 0.0, 255.0);
    RoundBetween(c, 0, 255);
    Round(c)
  }

  /** The colour between two stops at weight w. */
  function Blend(w: real, lowStop: ColorStop, highStop: ColorStop, pow: Pow): Color {
    var lo, hi := lowStop.color, highStop.color;
    Color(ToChannel(GammaBlend(w, lo.r, hi.r, pow)), ToChannel(GammaBlend(w, lo.g, hi.g, pow)),
          ToChannel(GammaBlend(w, lo.b, hi.b, pow)), ToChannel(GammaBlend(w, lo.a, hi.a, pow)))
  }

  /**
   * The palette colour of e: the first stop's at or below it, the last stop's
   * at or above it, otherwise the blend across the first segment holding e.
   */
  function PaletteColor(e: real, palette: ColorPalette, pow: Pow): (c: Color)
    requires |palette.stops| > 0
    ensures e <= palette.stops[0].elevation ==> c == palette.stops[0].color
    ensures e > palette.stops[0].elevation && e >= palette.stops[|palette.stops| - 1].elevation ==>
      c == palette.stops[|palette.stops| - 1].color
  {
    var stops := palette.stops;
    if e <= stops[0].elevation then stops[0].color
    else if e >= stops[|stops| - 1].elevation then stops[|stops| - 1].color
    else
      var k := FirstSegment(e, stops);
      Blend(Weight(e, stops[k], stops[k + 1]), stops[k], stops[k + 1], pow)
  }

  /** For a strictly increasing palette, an elevation of segment i blends exactly stops i and i + 1. */
  lemma PaletteColorInSegment(e: real, palette: ColorPalette, pow: Pow, i: int)
    requires StrictlyIncreasing(palette.stops) && InSegment(e, palette.stops, i)
    requires e > palette.stops[0].elevation
    ensures PaletteColor(e, palette, pow) ==
      Blend(Weight(e, palette.stops[i], palette.stops[i + 1]), palette.stops[i], palette.stops[i + 1], pow)
  {
    var stops := palette.stops;
    assert stops[i + 1].elevation <= stops[|stops| - 1].elevation by {
      if i + 1 < |stops| - 1 {
        assert stops[i + 1].elevation < stops[|stops| - 1].elevation;
      }
    }
    UniqueSegment(e, stops, i);
  }

  /**
   * GetColorFromPalette. It panics on a palette with no stops, which callers
   * must not pass; every palette in the source has stops.
   */
  method GetColorFromPalette(e: real, palette: ColorPalette, pow: Pow) returns (c: Color)
    requires |palette.stops| > 0
    ensures c == PaletteColor(e, palette, pow)
  {
    var stops := palette.stops;
    if e <= stops[0].elevation {
      return stops[0].color;
    }
    if e >= stops[|stops| - 1].elevation {
      return stops[|stops| - 1].color;
    }
    var lowStop, highStop := FindSegment(e, stops);
    var factor := RawFactor(e, lowStop, highStop);
    factor := Smoothstep(factor);
    factor := Clamp(factor, 0.0, 1.0);
    c := Blend(factor, lowStop, highStop, pow);
  }
}
