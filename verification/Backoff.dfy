/** A delay that doubles up to a limit, in closed form. */
module Backoff {

  function Max(a: int, b: int): int {
    if a < b then b else a
  }

  function Min(a: int, b: int): int {
    if b < a then b else a
  }

  function Pow2(n: nat): nat {
    if n == 0 then 1 else 2 * Pow2(n - 1)
  }

  function Delay(base: int, limit: int, k: nat): int {
    Min(base * Pow2(k), limit)
  }

  lemma {:induction false} Pow2Positive(k: nat)
    ensures Pow2(k) >= 1
  {
    if k > 0 {
      Pow2Positive(k - 1);
    }
  }

  lemma Scaled(a: int, b: int)
    requires a > 0 && b >= 1
    ensures a * b >= a
  {
  }

  /** Doubling and clipping the delay gives the next one, never a shorter one. */
  lemma DelayDoubles(base: int, limit: int, k: nat)
    requires 0 < base <= limit
    ensures Delay(base, limit, k + 1) == Min(Delay(base, limit, k) * 2, limit)
    ensures base <= Delay(base, limit, k) <= Delay(base, limit, k + 1) <= limit
  {
    Pow2Positive(k);
    assert base * Pow2(k + 1) == 2 * (base * Pow2(k));
    Scaled(base, Pow2(k));
  }

  /** Delays never get shorter and stay between base and limit. */
  lemma {:induction false} DelaysGrow(base: int, limit: int, i: nat, j: nat)
    requires 0 < base <= limit && i <= j
    ensures base <= Delay(base, limit, i) <= Delay(base, limit, j) <= limit
    decreases j - i
  {
    DelayDoubles(base, limit, i);
    if i < j {
      DelaysGrow(base, limit, i + 1, j);
    }
  }
}
