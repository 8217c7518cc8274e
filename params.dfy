/**
 * The UOV parameters the key recovery is written for: v = 68 vinegar
 * variables, m = 44 oil variables (and public-key equations), n = v + m
 * variables, and the Kipnis-Shamir dimensions derived from them.
 */
module Params {
  /** Number of vinegar variables. */
  const V: nat := 68
  /** Number of oil variables, and of public-key equations. */
  const M: nat := 44
  /** Number of variables. */
  const N: nat := 112
  /** fixed = 3m - n, the number of coordinates the Kipnis-Shamir step fixes. */
  const Fixed: nat := 20
  /** n - m - fixed, the size of the matrices the Kipnis-Shamir step works with. */
  const KsDim: nat := 48
}
