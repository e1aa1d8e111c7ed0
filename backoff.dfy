/**
 * The retry delays of the conversion pipeline: both retry loops wait
 * `Math.pow(2, n) * 1000` milliseconds between attempts.  Sleeping itself is
 * not modelled; the delays are recorded values.
 */
module Backoff {

  /** `Math.pow(2, n)` on a natural exponent. */
  function Pow2(n: nat): (p: nat)
    ensures p >= 1 && p > n
    ensures n > 0 ==> p == 2 * Pow2(n - 1)
  {
    if n == 0 then 1 else 2 * Pow2(n - 1)
  }

  /** The delay in milliseconds after the failure numbered `n` (from 0). */
  function BackoffMs(n: nat): (ms: nat)
    ensures ms >= 1000
  {
    Pow2(n) * 1000
  }

  /** Each delay doubles the one before it. */
  lemma BackoffDoubles(n: nat)
    ensures BackoffMs(n + 1) == 2 * BackoffMs(n)
  {
  }

  /** Example: the only delays a three-attempt loop can reach are one and then two seconds. */
  lemma FirstDelays()
    ensures BackoffMs(0) == 1000 && BackoffMs(1) == 2000
  {
  }
}
