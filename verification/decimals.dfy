/** Decimal helpers. Both runtimes compute in base-10 decimals; the model
    uses exact reals, and spells out the few places where the source rounds
    or truncates. */
module Decimals {

  function Abs(x: real): (r: real)
    ensures r >= 0.0 && (r == x || r == -x)
  {
    if x < 0.0 then -x else x
  }

  function Min(a: real, b: real): (r: real)
    ensures r <= a && r <= b && (r == a || r == b)
  {
    if a <= b then a else b
  }

  function Max(a: real, b: real): (r: real)
    ensures r >= a && r >= b && (r == a || r == b)
  {
    if a >= b then a else b
  }

  /** `x` has at most four decimal places. */
  predicate HasFourPlaces(x: real) {
    (x * 10000.0).Floor as real == x * 10000.0
  }

  /** Python `Decimal.quantize(Decimal("0.0001"))` under the default
      context, which rounds half to even. */
  function Quantize4(x: real): (q: real)
    ensures HasFourPlaces(q)
    ensures -0.00005 <= q - x <= 0.00005
    ensures HasFourPlaces(x) ==> q == x
  {
    var scaled := x * 10000.0;
    var f := scaled.Floor;
    var frac := scaled - f as real;
    var n := if frac > 0.5 then f + 1
             else if frac < 0.5 then f
             else if f % 2 == 0 then f else f + 1;
    assert (n as real / 10000.0) * 10000.0 == n as real;
    n as real / 10000.0
  }

  /** Ties go to the even neighbour. */
  lemma Quantize4HalfEven(x: real)
    requires (x * 10000.0 - (x * 10000.0).Floor as real) == 0.5
    ensures (Quantize4(x) * 10000.0).Floor % 2 == 0
  {
    var q := Quantize4(x);
    assert q * 10000.0 == (q * 10000.0).Floor as real;
  }

  /** The C# `(int)` conversion of a decimal: truncation toward zero. */
  function Truncate(x: real): (n: int)
    ensures x >= 0.0 ==> 0.0 <= n as real <= x < n as real + 1.0
    ensures x < 0.0 ==> n as real - 1.0 < x <= n as real <= 0.0
  {
    if x >= 0.0 then x.Floor else -((-x).Floor)
  }

  const Int32Min: int := -0x8000_0000
  const Int32Max: int := 0x7FFF_FFFF
}
