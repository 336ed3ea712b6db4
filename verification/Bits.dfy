/**
 The three bit counts the skip list arithmetic uses: trailing zeros, set bits
 and the integer logarithm.
 */
module Bits {

  function Pow2(k: nat): (p: nat)
    ensures p > 0
  {
    if k == 0 then 1 else 2 * Pow2(k - 1)
  }

  /** `u32::trailing_zeros` of a non-zero value. */
  function TrailingZeros(n: nat): nat
    requires n > 0
  {
    if n % 2 == 1 then 0 else 1 + TrailingZeros(n / 2)
  }

  /** `u32::count_ones`. */
  function Popcount(n: nat): nat {
    if n == 0 then 0 else n % 2 + Popcount(n / 2)
  }

  /** `u32::ilog2`: the floor of the base-two logarithm. */
  function Log2(n: nat): nat
    requires n > 0
  {
    if n == 1 then 0 else 1 + Log2(n / 2)
  }

  /** Incrementing `n - 1` clears its trailing ones and sets the bit above them. */
  lemma {:induction false} PopcountStep(n: nat)
    requires n > 0
    ensures Popcount(n) + TrailingZeros(n) == Popcount(n - 1) + 1
  {
    if n % 2 == 0 {
      PopcountStep(n / 2);
      assert (n - 1) / 2 == n / 2 - 1;
    } else {
      assert (n - 1) / 2 == n / 2;
    }
  }

  lemma {:induction false} PopcountBound(n: nat, k: nat)
    requires n < Pow2(k)
    ensures Popcount(n) <= k
    decreases k
  {
    if n != 0 {
      PopcountBound(n / 2, k - 1);
    }
  }

  /** Every skip `2^k` a block offers stays inside the chain. */
  lemma {:induction false} TrailingZerosFit(n: nat, k: nat)
    requires n > 0 && k <= TrailingZeros(n)
    ensures Pow2(k) <= n
    decreases k
  {
    if k != 0 {
      TrailingZerosFit(n / 2, k - 1);
    }
  }

  /**
   Taking a skip of `2^k` keeps at least `k` trailing zeros, and strictly more
   when the skip was the largest one available.
   */
  lemma {:induction false} TrailingZerosAfterSkip(n: nat, k: nat)
    requires n > 0 && k <= TrailingZeros(n) && Pow2(k) < n
    ensures TrailingZeros(n - Pow2(k)) >= k
    ensures k == TrailingZeros(n) ==> TrailingZeros(n - Pow2(k)) > k
    decreases k
  {
    if k == 0 {
      assert k == TrailingZeros(n) ==> (n - 1) % 2 == 0;
    } else {
      TrailingZerosAfterSkip(n / 2, k - 1);
      assert (n - Pow2(k)) / 2 == n / 2 - Pow2(k - 1);
    }
  }

  lemma {:induction false} Log2Bounds(n: nat)
    requires n > 0
    ensures Pow2(Log2(n)) <= n < 2 * Pow2(Log2(n))
  {
    if n != 1 {
      Log2Bounds(n / 2);
    }
  }

  lemma {:induction false} Pow2Monotone(j: nat, k: nat)
    requires j <= k
    ensures Pow2(j) <= Pow2(k)
    decreases k
  {
    if j < k {
      Pow2Monotone(j, k - 1);
    }
  }
}
