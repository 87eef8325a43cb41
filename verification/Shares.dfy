/** Multiples of a bound, added up one at a time so that no proof multiplies two unknowns. */
module Shares {
  /** What `n` open requests may still use, at `most` each. */
  function Share(n: nat, most: nat): nat {
    if n == 0 then 0 else Share(n - 1, most) + most
  }

  lemma {:induction false} ShareIsProduct(n: nat, most: nat)
    ensures Share(n, most) == n * most
  {
    if n > 0 {
      ShareIsProduct(n - 1, most);
    }
  }

  lemma {:induction false} ShareMonotone(m: nat, n: nat, most: nat)
    requires m <= n
    ensures Share(m, most) <= Share(n, most)
  {
    if m < n {
      ShareMonotone(m, n - 1, most);
    }
  }
}
