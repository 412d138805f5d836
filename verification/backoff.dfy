/** The retry delay (src/utils/compute-backoff.util.ts) and what it adds up to over the attempts of a job. */
module Backoff {
  function Min(a: int, b: int): int {
    if a <= b then a else b
  }

  function Pow2(n: nat): (r: int)
    ensures r >= 1
  {
    if n == 0 then 1 else 2 * Pow2(n - 1)
  }

  function ComputeBackoff(attempt: int, baseMs: int, maxMs: int): int {
    if attempt <= 1 then baseMs else Min(baseMs * Pow2(attempt - 1), maxMs)
  }

  /** The delays between the first and the `k`-th reservation: attempt `a` fails and is retried as attempt `a + 1`. */
  function TotalDelay(k: nat, baseMs: int, maxMs: int): int {
    if k <= 1 then 0 else TotalDelay(k - 1, baseMs, maxMs) + ComputeBackoff(k, baseMs, maxMs)
  }

  /** Retries never wait less than before, and never longer than the cap. */
  lemma BackoffIsMonotoneAndCapped(attempt: int, baseMs: int, maxMs: int)
    requires attempt >= 2 && baseMs >= 0 && maxMs >= 0
    ensures 0 <= ComputeBackoff(attempt, baseMs, maxMs) <= ComputeBackoff(attempt + 1, baseMs, maxMs) <= maxMs
    ensures ComputeBackoff(attempt, baseMs, maxMs) == maxMs <==> maxMs <= baseMs * Pow2(attempt - 1)
  {
  }

  /** The first attempt number is not clamped: it exceeds the cap exactly when the base does. */
  lemma FirstDelayIsUnclamped(attempt: int, baseMs: int, maxMs: int)
    requires baseMs >= 0 && maxMs >= 0
    ensures ComputeBackoff(attempt, baseMs, maxMs) > maxMs <==> attempt <= 1 && baseMs > maxMs
  {
  }

  lemma Doubling(baseMs: int, n: nat)
    requires baseMs >= 0
    ensures baseMs * Pow2(n + 1) == 2 * (baseMs * Pow2(n))
    ensures baseMs * Pow2(n) >= 0
  {
  }

  /** The accumulated delay is at most geometric, and exactly geometric while no delay is clamped. */
  lemma {:induction false} TotalDelayIsGeometric(k: nat, baseMs: int, maxMs: int)
    requires k >= 1 && baseMs >= 0 && maxMs >= 0
    ensures 0 <= TotalDelay(k, baseMs, maxMs) <= baseMs * Pow2(k) - 2 * baseMs
    ensures k >= 2 ==>
              (TotalDelay(k, baseMs, maxMs) == baseMs * Pow2(k) - 2 * baseMs <==> baseMs * Pow2(k - 1) <= maxMs)
  {
    if k >= 2 {
      TotalDelayIsGeometric(k - 1, baseMs, maxMs);
      Doubling(baseMs, k - 1);
      Doubling(baseMs, k - 2);
    } else {
      assert Pow2(1) == 2;
    }
  }

  /** The accumulated delay is at most one cap per retry. */
  lemma {:induction false} TotalDelayIsCapped(k: nat, baseMs: int, maxMs: int)
    requires k >= 1 && maxMs >= 0
    ensures TotalDelay(k, baseMs, maxMs) <= (k - 1) * maxMs
  {
    if k >= 2 {
      TotalDelayIsCapped(k - 1, baseMs, maxMs);
    }
  }
}
