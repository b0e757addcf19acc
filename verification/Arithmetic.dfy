/** Sums, and a fact about multiples that division needs. */
module Arithmetic {

  function Sum(s: seq<int>): (total: int)
    ensures (forall k | 0 <= k < |s| :: s[k] >= 0) ==> total >= 0
  {
    if s == [] then 0 else s[0] + Sum(s[1..])
  }

  lemma SmallMultiple(m: int, e: int)
    requires -m < m * e < m
    ensures e == 0
  {
  }
}
