/**
  Exact decimal arithmetic as the exchange performs it: every money and
  quantity column is decimal(20,8), and every multiplication is a bcmath
  call at scale 8, which truncates the exact product to 8 fractional digits.
  A value is represented here as an integer count of 10^-8 units.
 */
module FixedPoint {

  /** 10^8: one whole unit (1 USD, 1 BTC) in 10^-8 units. */
  const Scale: nat := 100_000_000

  /** The commission rate 0.015, in 10^-8 units. */
  const CommissionRate: nat := 1_500_000

  /** Product of two scale-8 values, truncated to scale 8 (bcmul with scale 8
      on non-negative operands). */
  function Mul8(a: nat, b: nat): nat
  {
    (a * b) / Scale
  }

  /** The result is the exact product rounded down to a whole number of
      10^-8 units: it is short of the exact product by less than one unit. */
  lemma Mul8Truncates(a: nat, b: nat)
    ensures Mul8(a, b) * Scale <= a * b < Mul8(a, b) * Scale + Scale
  {
  }

  /** The commission on a traded volume: volume × 0.015, truncated. */
  function Commission(volume: nat): (c: nat)
    ensures c <= volume
    ensures c * Scale <= volume * CommissionRate < c * Scale + Scale
  {
    Mul8(volume, CommissionRate)
  }

  /** Truncating multiplication never decreases when one factor grows. */
  lemma Mul8Monotone(a: nat, a': nat, b: nat)
    requires a <= a'
    ensures Mul8(a, b) <= Mul8(a', b)
  {
    assert a * b <= a' * b by {
      assert a' * b - a * b == (a' - a) * b;
    }
    Mul8Truncates(a, b);
    Mul8Truncates(a', b);
  }

  /** The commission grows with the volume it is taken from. */
  lemma CommissionMonotone(v: nat, v': nat)
    requires v <= v'
    ensures Commission(v) <= Commission(v')
  {
    Mul8Monotone(v, v', CommissionRate);
  }
}
