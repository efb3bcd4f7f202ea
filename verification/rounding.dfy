/**
  Rounding to one decimal place, half to even, as `np.round(x, decimals=1)`
  does, computed on exact reals.
*/
module Rounding {

  /** `k` is the integer nearest to `y`, a tie going to the even neighbour. */
  predicate NearestEven(y: real, k: int)
  {
    || (y - 0.5 < k as real < y + 0.5)
    || ((k as real - y == 0.5 || y - k as real == 0.5) && k % 2 == 0)
  }

  /** At most one integer is nearest to `y` under the ties-to-even rule. */
  lemma NearestEvenUnique(y: real, k: int, j: int)
    requires NearestEven(y, k) && NearestEven(y, j)
    ensures k == j
  {
  }

  /** The integer nearest to `y`; a tie goes to the even neighbour. */
  function RoundHalfEven(y: real): (k: int)
    ensures NearestEven(y, k)
  {
    var f := y.Floor;
    var frac := y - f as real;
    if frac < 0.5 then f
    else if frac > 0.5 then f + 1
    else if f % 2 == 0 then f
    else f + 1
  }

  /** `x` rounded to the nearest tenth, ties to an even number of tenths. */
  function Round1(x: real): (r: real)
    ensures exists k: int {:trigger NearestEven(x * 10.0, k)} :: r == k as real / 10.0 && NearestEven(x * 10.0, k)
    ensures -0.05 <= r - x <= 0.05
  {
    RoundHalfEven(x * 10.0) as real / 10.0
  }

  /** The rounding is the one integer nearest to `y` under the ties-to-even rule. */
  lemma RoundHalfEvenIsNearest(y: real, k: int)
    requires NearestEven(y, k)
    ensures RoundHalfEven(y) == k
  {
    NearestEvenUnique(y, RoundHalfEven(y), k);
  }

  /** Rounding never reverses the order of two values. */
  lemma RoundHalfEvenMonotone(y: real, z: real)
    requires y <= z
    ensures RoundHalfEven(y) <= RoundHalfEven(z)
  {
  }

  /** A value already on a tenth is left as it is. */
  lemma Round1OfTenths(k: int)
    ensures Round1(k as real / 10.0) == k as real / 10.0
  {
    assert (k as real / 10.0) * 10.0 == k as real;
    RoundHalfEvenIsNearest(k as real, k);
  }

  /** The rounding of `x` is the tenth `k / 10` exactly when `k` is the
      integer nearest to `10 x`, a tie going to the even neighbour. */
  lemma Round1IsNearestTenth(x: real, k: int)
    ensures Round1(x) == k as real / 10.0 <==> NearestEven(x * 10.0, k)
  {
    if NearestEven(x * 10.0, k) {
      RoundHalfEvenIsNearest(x * 10.0, k);
    }
  }

  /** Rounding twice is rounding once. */
  lemma Round1Idempotent(x: real)
    ensures Round1(Round1(x)) == Round1(x)
  {
    Round1OfTenths(RoundHalfEven(x * 10.0));
  }

  /** Rounding keeps the order of two values. */
  lemma Round1Monotone(x: real, y: real)
    requires x <= y
    ensures Round1(x) <= Round1(y)
  {
    RoundHalfEvenMonotone(x * 10.0, y * 10.0);
  }
}
