/** Delays that double. */
module Doubling {
  /** base * 2^times. */
  function Doubled(base: nat, times: nat): (r: nat)
    ensures base <= r
  {
    if times == 0 then base else 2 * Doubled(base, times - 1)
  }
}
