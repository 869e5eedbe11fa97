/** The random-number generator as an explicit input: a finite stream of
    uniform variates in [0, 1). Every `random.choice(xs)` or
    `random.randint(0, n - 1)` consumes the next variate `u` and yields the
    index Floor(u * n). */
module Variates {

  type Variate = u: real | 0.0 <= u < 1.0

  /** The index in [0, n) that the variate `u` selects among `n` choices. */
  function Pick(u: Variate, n: nat): (i: nat)
    requires n > 0
    ensures i < n
  {
    assert 0.0 <= u * n as real < n as real by {
      assert u * n as real <= u * n as real;
    }
    (u * n as real).Floor
  }
}
