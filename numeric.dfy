/**
 * Numeric helpers shared by the model: powers of two, Go's math.Round,
 * math.Trunc, math.Mod, math.Min/Max and the low-bit wrap of an integer
 * conversion. Go's float64/float32 are modelled as Dafny reals.
 */
module Numeric {

  /** Go's uint8. */
  type Byte = n: nat | n < 256

  /** Go's uint16. */
  type Uint16 = n: nat | n < 65536

  /** Go's uint32. */
  type Uint32 = n: nat | n < 0x1_0000_0000

  function Pow2(n: nat): (r: nat)
    ensures r >= 1
  {
    if n == 0 then 1 else 2 * Pow2(n - 1)
  }

  function Abs(x: real): (r: real)
    ensures r >= 0.0 && (r == x || r == -x)
  {
    if x < 0.0 then -x else x
  }

  function Min(a: real, b: real): (r: real)
    ensures r <= a && r <= b && (r == a || r == b)
  {
    if a < b then a else b
  }

  function Max(a: real, b: real): (r: real)
    ensures r >= a && r >= b && (r == a || r == b)
  {
    if a > b then a else b
  }

  /** math.Max(lo, math.Min(hi, x)), the clamp idiom used throughout the source. */
  function Clamp(x: real, lo: real, hi: real): (r: real)
    requires lo <= hi
    ensures lo <= r <= hi
    ensures lo <= x <= hi ==> r == x
    ensures x < lo ==> r == lo
    ensures x > hi ==> r == hi
  {
    Max(lo, Min(hi, x))
  }

  /** math.Floor as an integer. */
  function Floor(x: real): (r: int)
    ensures r as real <= x < r as real + 1.0
  {
    x.Floor
  }

  /** An integer k with k <= x < k + 1 is the floor of x. */
  lemma FloorUnique(x: real, k: int)
    requires k as real <= x < k as real + 1.0
    ensures Floor(x) == k
  {
    var f := Floor(x);
    assert f as real < k as real + 1.0 && k as real < f as real + 1.0;
  }

  /** Adding an integer moves the floor by that integer. */
  lemma FloorShift(n: int, x: real)
    ensures Floor(n as real + x) == n + Floor(x)
  {
    FloorUnique(n as real + x, n + Floor(x));
  }

  /** math.Trunc: rounds toward zero. */
  function Trunc(x: real): (r: int)
    ensures x >= 0.0 ==> r == Floor(x)
    ensures x < 0.0 ==> r == -Floor(-x)
    ensures Abs(r as real) <= Abs(x) < Abs(r as real) + 1.0
  {
    if x >= 0.0 then Floor(x) else -Floor(-x)
  }

  /** math.Round: rounds half away from zero. */
  function Round(x: real): (r: int)
    ensures x - 0.5 <= r as real <= x + 0.5
    ensures x >= 0.0 ==> r >= 0
  {
    if x >= 0.0 then Floor(x + 0.5) else -Floor(-x + 0.5)
  }

  lemma RoundOfInt(n: int)
    ensures Round(n as real) == n
  {
  }

  lemma RoundMonotone(x: real, y: real)
    requires x <= y
    ensures Round(x) <= Round(y)
  {
  }

  /** Rounding a value between two integers cannot leave them. */
  lemma RoundBetween(x: real, lo: int, hi: int)
    requires lo as real <= x <= hi as real
    ensures lo <= Round(x) <= hi
  {
    RoundMonotone(lo as real, x);
    RoundMonotone(x, hi as real);
    RoundOfInt(lo);
    RoundOfInt(hi);
  }

  /** math.Mod(x, y) for y > 0: the remainder carries the sign of x. */
  function GoMod(x: real, y: real): (r: real)
    requires y > 0.0
    ensures x >= 0.0 ==> r == x - y * Floor(x / y) as real
  {
    x - y * Trunc(x / y) as real
  }

  /** The low 8 bits of n, as Go's conversion of an integral value to uint8 keeps them. */
  function Wrap8(n: int): (r: nat)
    ensures r < 256
    ensures 0 <= n < 256 ==> r == n
  {
    n % 256
  }

  /** The low 16 bits of n (conversion to uint16). */
  function Wrap16(n: int): (r: nat)
    ensures r < 65536
    ensures 0 <= n < 65536 ==> r == n
  {
    n % 65536
  }

  /** The low 32 bits of n (uint32 arithmetic). */
  function Wrap32(n: int): (r: nat)
    ensures r < 0x1_0000_0000
    ensures 0 <= n < 0x1_0000_0000 ==> r == n
  {
    n % 0x1_0000_0000
  }
}
