/** Powers of two, bit widths and the bit operations the containers and the type layout use. */
module Bits {

  function Pow2(k: nat): (p: nat)
    ensures p > 0
  {
    if k == 0 then 1 else 2 * Pow2(k - 1)
  }

  /** std::bit_width: the number of bits needed to write n. */
  function BitWidth(n: nat): nat {
    if n == 0 then 0 else 1 + BitWidth(n / 2)
  }

  /** n & ~(1 << k). */
  function ClearBit(n: nat, k: nat): nat {
    if k == 0 then n - n % 2 else 2 * ClearBit(n / 2, k - 1) + n % 2
  }

  lemma {:induction false} Pow2Grows(j: nat, k: nat)
    requires j < k
    ensures 2 * Pow2(j) <= Pow2(k)
  {
    if j + 1 < k {
      Pow2Grows(j, k - 1);
    }
  }

  lemma {:induction false} BitWidthBounds(n: nat)
    requires n > 0
    ensures BitWidth(n) > 0 && Pow2(BitWidth(n) - 1) <= n < Pow2(BitWidth(n))
  {
    if n > 1 {
      BitWidthBounds(n / 2);
    }
  }

  /** The bit width is the only exponent whose power of two brackets n. */
  lemma BitWidthUnique(n: nat, k: nat)
    requires Pow2(k) <= n < Pow2(k + 1)
    ensures BitWidth(n) == k + 1
  {
    BitWidthBounds(n);
    var w := BitWidth(n) - 1;
    if w < k {
      Pow2Grows(w, k);
    } else if k < w {
      Pow2Grows(k, w);
    }
  }

  /** Clearing the highest set bit subtracts its power. */
  lemma {:induction false} ClearTopBit(n: nat, k: nat)
    requires Pow2(k) <= n < Pow2(k + 1)
    ensures ClearBit(n, k) == n - Pow2(k)
  {
    if k == 0 {
    } else {
      ClearTopBit(n / 2, k - 1);
    }
  }
}
