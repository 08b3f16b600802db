/** Rounding as the source's `Math.round` does it. */
module Rounding {

  /** To the nearest whole number, halves upwards. */
  function Round(x: real): int {
    (x + 0.5).Floor
  }

  lemma WholeRounds(n: int)
    ensures Round(n as real) == n
  {
  }
}
