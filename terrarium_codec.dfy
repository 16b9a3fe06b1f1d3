/**
 * colors/terrarium/terrarium.go: the Terrarium RGB encoding of an elevation
 * (R * 256 + G + B / 256 - 32768 metres) and its two sentinel colours. The
 * decoder it pairs with is TerrainTerrarium.TerrariumElevation.
 */
module TerrariumCodec {
  import opened Numeric
  import opened Colors
  import TerrainTerrarium

  /** The colour of sea level. */
  const ZeroElevation := Color(128, 0, 0, 255)

  /** The colour used for ice: the encoding of 3 metres. */
  const IceElevation := Color(128, 3, 0, 255)

  /** The elevations whose offset value e + 32768 fits in the three channels. */
  predicate InRange(e: real) {
    0.0 <= e + 32768.0 < 65536.0
  }

  /**
   * encodeElevationToTerrarium: R is the number of whole 256s in v = e + 32768,
   * G the whole metres of math.Mod(v, 256), B the fraction of v in 256ths; an
   * out-of-range channel keeps its low 8 bits. In range no channel wraps.
   */
  function Encode(e: real): (c: Color)
    ensures c.a == 255
    ensures InRange(e) ==> c.r as real <= (e + 32768.0) / 256.0 < c.r as real + 1.0
    ensures InRange(e) ==> c.r * 256 + c.g == Floor(e + 32768.0)
    ensures InRange(e) ==> c.b as real <= (e + 32768.0 - Floor(e + 32768.0) as real) * 256.0 < c.b as real + 1.0
  {
    var v := e + 32768.0;
    var r := Floor(v / 256.0);
    var m := GoMod(v, 256.0);
    var f := v - Floor(v) as real;
    var c := Color(Wrap8(r), Wrap8(Floor(m)), Wrap8(Floor(f * 256.0)), 255);
    if InRange(e) then
      ChannelsInRange(v); c
    else c
  }

  /** For 0 <= v < 65536 the three channel values lie in [0, 255] and G completes R to the floor of v. */
  lemma ChannelsInRange(v: real)
    requires 0.0 <= v < 65536.0
    ensures 0 <= Floor(v / 256.0) < 256
    ensures 0 <= Floor(GoMod(v, 256.0)) < 256
    ensures Floor(v / 256.0) * 256 + Floor(GoMod(v, 256.0)) == Floor(v)
    ensures 0 <= Floor((v - Floor(v) as real) * 256.0) < 256
  {
    var r := Floor(v / 256.0);
    assert r as real * 256.0 <= v < r as real * 256.0 + 256.0;
    var m := GoMod(v, 256.0);
    assert m == v - 256.0 * r as real;
    FloorShift(r * 256, m);
    assert (r * 256) as real + m == v;
  }

  /** The elevation the decoder reads back from a colour. */
  function Decoded(c: Color): real {
    TerrainTerrarium.TerrariumElevation(c.r, c.g, c.b)
  }

  /** In range, decoding the encoding loses less than 1/256 m and never rounds up. */
  lemma DecodeBracketsElevation(e: real)
    requires InRange(e)
    ensures Decoded(Encode(e)) <= e < Decoded(Encode(e)) + 1.0 / 256.0
  {
    var c := Encode(e);
    var v := e + 32768.0;
    var f := v - Floor(v) as real;
    assert Decoded(c) + 32768.0 == (c.r * 256 + c.g) as real + c.b as real / 256.0;
    assert Decoded(c) + 32768.0 == Floor(v) as real + c.b as real / 256.0;
    assert c.b as real / 256.0 <= f < c.b as real / 256.0 + 1.0 / 256.0;
  }

  /** In range, a multiple of 1/256 m survives encoding and decoding exactly. */
  lemma RoundTripOnGrid(n: int)
    requires InRange(n as real / 256.0)
    ensures Decoded(Encode(n as real / 256.0)) == n as real / 256.0
  {
    var e := n as real / 256.0;
    var c := Encode(e);
    var v := e + 32768.0;
    var f := v - Floor(v) as real;
    assert f * 256.0 == (n + 32768 * 256 - Floor(v) * 256) as real;
    FloorUnique(f * 256.0, n + 32768 * 256 - Floor(v) * 256);
    assert c.b as real == f * 256.0;
    assert Decoded(c) + 32768.0 == Floor(v) as real + c.b as real / 256.0;
  }

  /** ZeroElevation is the encoding of 0 m and decodes to 0 m. */
  lemma ZeroElevationEncodesZero()
    ensures Encode(0.0) == ZeroElevation
    ensures Decoded(ZeroElevation) == 0.0
  {
    FloorUnique(32768.0 / 256.0, 128);
    FloorUnique(32768.0, 32768);
  }

  /** IceElevation is the encoding of 3 m and decodes to 3 m. */
  lemma IceElevationEncodesThree()
    ensures Encode(3.0) == IceElevation
    ensures Decoded(IceElevation) == 3.0
  {
    FloorUnique(32771.0 / 256.0, 128);
    FloorUnique(32771.0, 32771);
    FloorUnique(3.0, 3);
  }
}
