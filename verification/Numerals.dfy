/**
 Numbers in decimal digits.
 */
module Numerals {
  predicate IsDigit(c: int) {
    '0' as int <= c <= '9' as int
  }

  function Decimal(n: nat): (w: seq<int>)
    ensures w != [] && forall k | 0 <= k < |w| :: IsDigit(w[k])
  {
    (if n < 10 then [] else Decimal(n / 10)) + ['0' as int + n % 10]
  }
}
