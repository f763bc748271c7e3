/** The one-decimal rounding that both scores share: the score is scaled by ten,
    half is added, the floor is taken and the result is scaled back. */
module Rounding {

  /** A real that is a whole number of tenths. */
  predicate IsTenths(x: real) {
    (x * 10.0).Floor as real == x * 10.0
  }

  /** Rounds half-up to one decimal place. The result is a whole number of tenths
      and lies in the half-open interval (x - 0.05, x + 0.05]. */
  function Round(x: real): (r: real)
    ensures IsTenths(r)
    ensures x - 0.05 < r <= x + 0.05
  {
    (x * 10.0 + 0.5).Floor as real / 10.0
  }

  /** Ties are broken upwards: a value exactly half-way between two tenths goes to the upper one. */
  lemma RoundHalfUp(k: int)
    ensures Round(k as real / 10.0 + 0.05) == (k + 1) as real / 10.0
  {
    assert (k as real / 10.0 + 0.05) * 10.0 + 0.5 == (k + 1) as real;
  }

  /** A value that is already a whole number of tenths is left unchanged. */
  lemma RoundTenths(x: real)
    requires IsTenths(x)
    ensures Round(x) == x
  {
    var k := (x * 10.0).Floor;
    assert x * 10.0 + 0.5 == k as real + 0.5;
    assert (x * 10.0 + 0.5).Floor == k;
  }

  /** Rounding never reverses the order of two scores. */
  lemma RoundMonotone(x: real, y: real)
    requires x <= y
    ensures Round(x) <= Round(y)
  {
    assert (x * 10.0 + 0.5).Floor <= (y * 10.0 + 0.5).Floor;
  }

  /** Scaling a non-negative value down by a factor of at most one never raises its rounding. */
  lemma RoundScaledDown(m: real, x: real)
    requires 0.0 <= m <= 1.0 && x >= 0.0
    ensures Round(m * x) <= Round(x)
  {
    assert m * x <= x;
    RoundMonotone(m * x, x);
  }

  /** Round agrees with its defining rule: it is the unique number of tenths r with
      r - 0.05 <= x < r + 0.05, so it does not depend on how the floor is computed. */
  lemma RoundUnique(x: real, r: real)
    requires IsTenths(r) && r - 0.05 <= x < r + 0.05
    ensures Round(x) == r
  {
    var k := (r * 10.0).Floor;
    assert r * 10.0 == k as real;
    assert k as real <= x * 10.0 + 0.5 < k as real + 1.0;
    assert (x * 10.0 + 0.5).Floor == k;
  }
}
