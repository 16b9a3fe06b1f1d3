/**
 * colors/mono-terrain/mono.go: elevations as 16-bit grey levels in quarter
 * metres above -7500 m, and the sea-level and ice sentinels.
 */
module MonoCodec {
  import opened Numeric

  /** color.Gray16. */
  datatype Gray16 = Gray16(y: Uint16)

  /** The zero pixel of a fresh image.Gray16. */
  const Black := Gray16(0)

  const ElevationShift: real := 7500.0

  /** The grey level of sea level. */
  const ZeroElevation := Gray16(30000)

  /** The grey level used for ice: 3 m. */
  const IceElevation := Gray16(30012)

  /** The elevations whose rounded level fits in 16 bits without wrapping. */
  predicate InRange(e: real) {
    -ElevationShift <= e <= 8883.75
  }

  /**
   * EncodeElevationToMonoTerrain: (e + 7500) * 4 rounded half away from zero,
   * converted to uint16 (which keeps the low 16 bits). In range that is the
   * nearest quarter metre.
   */
  function Encode(e: real): (p: Gray16)
    ensures InRange(e) ==> (e + ElevationShift) * 4.0 - 0.5 <= p.y as real <= (e + ElevationShift) * 4.0 + 0.5
  {
    var v := (e + ElevationShift) * 4.0;
    if InRange(e) then
      RoundBetween(v, 0, 65535);
      Gray16(Wrap16(Round(v)))
    else Gray16(Wrap16(Round(v)))
  }

  /** DecodeElevationFromMonoTerrain: a quarter metre per level, level 0 at -7500 m. */
  function Decode(p: Gray16): (e: real)
    ensures InRange(e)
    ensures (e + ElevationShift) * 4.0 == p.y as real
  {
    p.y as real / 4.0 - ElevationShift
  }

  /** Every grey level survives decoding and encoding. */
  lemma EncodeDecode(p: Gray16)
    ensures Encode(Decode(p)) == p
  {
    RoundOfInt(p.y);
  }

  /** A multiple of 1/4 m in range survives encoding and decoding exactly. */
  lemma DecodeEncodeOnQuarters(n: int)
    requires InRange(n as real / 4.0)
    ensures Decode(Encode(n as real / 4.0)) == n as real / 4.0
  {
    var e := n as real / 4.0;
    assert (e + ElevationShift) * 4.0 == (n + 30000) as real;
    RoundOfInt(n + 30000);
  }

  /** In range, decoding the encoding is off by at most 1/8 m. */
  lemma EncodeErrorBound(e: real)
    requires InRange(e)
    ensures Abs(Decode(Encode(e)) - e) <= 1.0 / 8.0
  {
  }

  /** ZeroElevation is the encoding of 0 m and decodes to 0 m; IceElevation is the encoding of 3 m and decodes to 3 m. */
  lemma SentinelsDecode()
    ensures Encode(0.0) == ZeroElevation && Decode(ZeroElevation) == 0.0
    ensures Encode(3.0) == IceElevation && Decode(IceElevation) == 3.0
  {
    RoundOfInt(30000);
    RoundOfInt(30012);
  }
}
