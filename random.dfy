/**
 * Randomness and the JavaScript idioms that consume it.
 *
 * Every `Math.random()` of the server is lifted to a real parameter `r` with
 * `0 <= r < 1`, and `Math.floor(Math.random() * n)` becomes `RandomBelow(r, n)`.
 */
module Random {

  /** The range of `Math.random()`: the half-open unit interval. */
  predicate IsUnit(r: real) {
    0.0 <= r < 1.0
  }

  /** Scaling a unit value by a real stays between 0 and that real. */
  lemma ScaleBounds(r: real, y: real)
    requires IsUnit(r)
    ensures y >= 0.0 ==> 0.0 <= r * y <= y
    ensures y > 0.0 ==> r * y < y
    ensures y < 0.0 ==> y <= r * y <= 0.0
  {
    if y > 0.0 {
      assert (1.0 - r) * y > 0.0;
    } else if y < 0.0 {
      assert (1.0 - r) * (0.0 - y) > 0.0;
      assert r * (0.0 - y) >= 0.0;
    }
  }

  /** `Math.floor(r * n)`: for n > 0 a uniform choice among 0 .. n-1. */
  function RandomBelow(r: real, n: int): (k: int)
    requires IsUnit(r)
    ensures n >= 0 ==> 0 <= k && (n > 0 ==> k < n)
    ensures n < 0 ==> n <= k <= 0
  {
    ScaleBounds(r, n as real);
    (r * n as real).Floor
  }
}
