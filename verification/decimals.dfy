/** `java.math.BigDecimal` as far as the model needs it: an exact decimal and
    its comparison with zero. */
module Decimals {

  /** `unscaled × 10^(-scale)`; a negative scale multiplies by a power of ten,
      as in BigDecimal. */
  datatype Decimal = Decimal(unscaled: int, scale: int)

  function Pow10(n: nat): (r: int)
    ensures r >= 1
  {
    if n == 0 then 1 else 10 * Pow10(n - 1)
  }

  /** The exact value denoted. */
  function Value(d: Decimal): real {
    if d.scale >= 0 then d.unscaled as real / Pow10(d.scale) as real
    else (d.unscaled * Pow10(-d.scale)) as real
  }

  /** `d.compareTo(BigDecimal.ZERO)`: the sign of the unscaled value. */
  function CompareToZero(d: Decimal): int {
    if d.unscaled < 0 then -1 else if d.unscaled == 0 then 0 else 1
  }

  lemma QuotientSign(x: int, p: int)
    requires p >= 1
    ensures x as real / p as real > 0.0 <==> x > 0
  {
    var q := x as real / p as real;
    assert q * p as real == x as real;
  }

  lemma ProductSign(x: int, p: int)
    requires p >= 1
    ensures x * p > 0 <==> x > 0
  {
    if x > 0 {
      assert x * p == (x - 1) * p + p;
    } else {
      assert x * p == -((-x) * p);
    }
  }

  /** The comparison with zero is exact: it is positive exactly when the
      denoted value is, whatever the scale. */
  lemma CompareToZeroIsExact(d: Decimal)
    ensures CompareToZero(d) > 0 <==> Value(d) > 0.0
  {
    if d.scale >= 0 {
      QuotientSign(d.unscaled, Pow10(d.scale));
    } else {
      ProductSign(d.unscaled, Pow10(-d.scale));
    }
  }
}
