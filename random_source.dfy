/**
 * `Math.random()` is not modelled as a distribution: every call becomes an
 * oracle input, a real number in the half-open interval [0, 1), and the
 * `Math.floor(Math.random() * n)` idiom becomes `PickIndex`.
 */
module RandomSource {

  /** A value `Math.random()` can return. */
  predicate IsRoll(r: real) {
    0.0 <= r < 1.0
  }

  /** `Math.floor(r * n)`: the index the source draws from a list of length `n`. */
  function PickIndex(r: real, n: nat): (k: nat)
    requires IsRoll(r) && n > 0
    ensures k < n
    ensures k as real <= r * n as real < k as real + 1.0
  {
    ScaledRollBounds(r, n);
    (r * n as real).Floor
  }

  /** A roll scaled by a positive length stays in [0, n). */
  lemma ScaledRollBounds(r: real, n: nat)
    requires IsRoll(r) && n > 0
    ensures 0.0 <= r * n as real < n as real
  {
    assert r * n as real <= 1.0 * n as real by {
      assert (1.0 - r) * n as real >= 0.0;
    }
    assert (1.0 - r) * n as real > 0.0;
  }
}
