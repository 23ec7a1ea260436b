/** UCB2 epoch arithmetic over exact reals: the epoch length
    `ceil((1 + alpha) ** ka)`. */
module Epochs {

  /** `b ** n` for a natural exponent, as exact real arithmetic. */
  function Pow(b: real, n: nat): real {
    if n == 0 then 1.0 else b * Pow(b, n - 1)
  }

  lemma {:induction false} PowPositive(b: real, n: nat)
    ensures b > 0.0 ==> Pow(b, n) > 0.0
  {
    if n > 0 {
      PowPositive(b, n - 1);
    }
  }

  /** For a base of at least one the powers start at 1 and grow. */
  lemma {:induction false} PowGrows(b: real, n: nat)
    requires b >= 1.0
    ensures 1.0 <= Pow(b, n) <= Pow(b, n + 1)
  {
    if n > 0 {
      PowGrows(b, n - 1);
    }
    assert Pow(b, n + 1) - Pow(b, n) == (b - 1.0) * Pow(b, n);
  }

  /** For a base in (0, 1] every power lies in (0, 1]. */
  lemma {:induction false} PowAtMostOne(b: real, n: nat)
    requires 0.0 < b <= 1.0
    ensures 0.0 < Pow(b, n) <= 1.0
  {
    if n > 0 {
      PowAtMostOne(b, n - 1);
      assert Pow(b, n) == b * Pow(b, n - 1) <= Pow(b, n - 1);
    }
  }

  /** Python's `math.ceil`: the least integer not below `x`. */
  function Ceil(x: real): (c: int)
    ensures x <= c as real < x + 1.0
  {
    var f := x.Floor;
    if f as real == x then f else f + 1
  }

  lemma CeilMonotone(x: real, y: real)
    requires x <= y
    ensures Ceil(x) <= Ceil(y)
  {
  }

  /** The epoch length `ceil((1 + alpha) ** ka)` that UCB2 gives an arm whose
      epoch has advanced `ka` times. */
  function EpochLength(alpha: real, ka: nat): (tau: int)
    ensures alpha > -1.0 ==> tau >= 1
    ensures ka == 0 ==> tau == 1
  {
    PowPositive(1.0 + alpha, ka);
    Ceil(Pow(1.0 + alpha, ka))
  }

  /** For every `alpha > -1` the epoch length never shrinks as the epoch
      counter grows (it stays 1 when `alpha <= 0`). */
  lemma {:induction false} EpochLengthMonotone(alpha: real, m: nat, n: nat)
    requires alpha > -1.0 && m <= n
    ensures EpochLength(alpha, m) <= EpochLength(alpha, n)
  {
    if m < n {
      EpochLengthMonotone(alpha, m, n - 1);
      if alpha >= 0.0 {
        PowGrows(1.0 + alpha, n - 1);
        CeilMonotone(Pow(1.0 + alpha, n - 1), Pow(1.0 + alpha, n));
      } else {
        PowAtMostOne(1.0 + alpha, n - 1);
        PowAtMostOne(1.0 + alpha, n);
      }
    }
  }
}
