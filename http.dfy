/**
 * http.go: the request validation at the head of configureHandler, which
 * turns the z, y and x path segments into a tile coordinate or a 400
 * response, and the zoom segment pattern [1-2]?[0-9] of MainHandler's routes.
 */
module Http {
  import opened Numeric
  import opened Outcomes
  import opened Decimal

  /** The outcome of validation: a 400 with its message, or the parsed coordinate the handler goes on with. */
  datatype Validation = BadRequest(message: string) | Accepted(z: nat, y: nat, x: nat)

  /**
   * The checks in order: z must parse as an 8-bit number and not exceed the
   * provider's MaxZoom; y and then x must parse as 32-bit numbers below 2^z.
   */
  function Validate(zText: string, yText: string, xText: string, maxZoom: Uint32): (v: Validation)
    ensures ParseUint(zText, 8).None? ==> v == BadRequest("Invalid zoom level")
    ensures ParseUint(zText, 8).Some? && ParseUint(zText, 8).value > maxZoom ==> v == BadRequest("Zoom level too high")
    ensures v.Accepted? <==>
      ParseUint(zText, 8).Some? && ParseUint(zText, 8).value <= maxZoom &&
      ParseUint(yText, 32).Some? && ParseUint(yText, 32).value < Pow2(ParseUint(zText, 8).value) &&
      ParseUint(xText, 32).Some? && ParseUint(xText, 32).value < Pow2(ParseUint(zText, 8).value)
    ensures v.Accepted? ==> v.z <= maxZoom && v.y < Pow2(v.z) && v.x < Pow2(v.z)
    ensures v.Accepted? ==> v == Accepted(DigitsValue(zText), DigitsValue(yText), DigitsValue(xText))
  {
    match ParseUint(zText, 8)
    case None => BadRequest("Invalid zoom level")
    case Some(z) =>
      if z > maxZoom then BadRequest("Zoom level too high")
      else
        var maxScale := Pow2(z);
        match ParseUint(yText, 32)
        case None => BadRequest("Invalid y coordinate")
        case Some(y) =>
          if y >= maxScale then BadRequest("Invalid y coordinate")
          else
            match ParseUint(xText, 32)
            case None => BadRequest("Invalid x coordinate")
            case Some(x) =>
              if x >= maxScale then BadRequest("Invalid x coordinate")
              else Accepted(z, y, x)
  }

  /** A bad y is reported before x is looked at, once z has passed. */
  lemma YCheckedBeforeX(zText: string, yText: string, xText: string, maxZoom: Uint32)
    requires ParseUint(zText, 8).Some? && ParseUint(zText, 8).value <= maxZoom
    requires ParseUint(yText, 32).None? || ParseUint(yText, 32).value >= Pow2(ParseUint(zText, 8).value)
    ensures Validate(zText, yText, xText, maxZoom) == BadRequest("Invalid y coordinate")
  {
  }

  /** A valid coordinate written in decimal is accepted as itself. */
  lemma AcceptsValidCoordinates(z: nat, y: nat, x: nat, maxZoom: Uint32)
    requires z <= maxZoom && z < 256 && y < Pow2(z) && x < Pow2(z) && y < Pow2(32) && x < Pow2(32)
    ensures Validate(NatToString(z), NatToString(y), NatToString(x), maxZoom) == Accepted(z, y, x)
  {
    ParseUintOfNatToString(z, 8);
    ParseUintOfNatToString(y, 32);
    ParseUintOfNatToString(x, 32);
  }

  /** The route's zoom segment [1-2]?[0-9]: one digit, or a 1 or 2 followed by a digit. */
  predicate RouteZoom(s: string) {
    (|s| == 1 && IsDigit(s[0])) || (|s| == 2 && (s[0] == '1' || s[0] == '2') && IsDigit(s[1]))
  }

  /** The route admits exactly the zoom levels 0 to 29, each in its shortest decimal form. */
  lemma RouteZoomRange(s: string)
    ensures RouteZoom(s) ==> AllDigits(s) && DigitsValue(s) <= 29 && s == NatToString(DigitsValue(s))
  {
    if RouteZoom(s) {
      if |s| == 2 {
        assert s[..1] == [s[0]];
        assert DigitsValue(s) == DigitValue(s[0]) * 10 + DigitValue(s[1]);
        var n := DigitsValue(s);
        assert n / 10 == DigitValue(s[0]) && n % 10 == DigitValue(s[1]);
        assert NatToString(n) == NatToString(n / 10) + [DigitChar(n % 10)];
      }
    }
  }

  lemma RouteZoomComplete(n: nat)
    requires n <= 29
    ensures RouteZoom(NatToString(n))
  {
    if n >= 10 {
      assert NatToString(n) == NatToString(n / 10) + [DigitChar(n % 10)];
    }
  }
}
