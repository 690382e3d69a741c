// calculateBackoff in sender.go, with the random jitter as an argument and
// exact real arithmetic.

module Backoff {

  const MIN_BACKOFF_SECONDS := 60.0
  const MAX_BACKOFF_SECONDS := 3600.0

  function Pow2(n: nat): nat {
    if n == 0 then 1 else 2 * Pow2(n - 1)
  }

  /** The delay before jitter. */
  function Delay(retryCount: nat): real
    requires retryCount >= 1
  {
    var backoff := MIN_BACKOFF_SECONDS * Pow2(retryCount - 1) as real;
    if backoff > MAX_BACKOFF_SECONDS then MAX_BACKOFF_SECONDS else backoff
  }

  /** In seconds, rounded down; the code calls it only after a failure. */
  function CalculateBackoff(retryCount: nat, jitter: real): int
    requires retryCount >= 1
  {
    (Delay(retryCount) * (1.0 + jitter)).Floor
  }

  predicate ValidJitter(jitter: real) {
    -0.2 <= jitter < 0.2
  }

  lemma {:induction false} Pow2Grows(m: nat, n: nat)
    requires m <= n
    ensures 1 <= Pow2(m) <= Pow2(n)
  {
    if n > 0 {
      if m < n {
        Pow2Grows(m, n - 1);
      } else {
        Pow2Grows(m - 1, n - 1);
      }
    }
  }

  lemma Pow2Small()
    ensures Pow2(5) == 32 && Pow2(6) == 64
  {
    assert Pow2(3) == 8;
  }

  /** The delay doubles until it is capped, never shrinks, and is at the cap exactly from the seventh retry on. */
  lemma DelayGrows(n: nat)
    requires n >= 1
    ensures Delay(1) == 60.0 <= Delay(n) <= Delay(n + 1) <= 3600.0
    ensures Delay(n) == 3600.0 <==> n >= 7
    ensures n < 6 ==> Delay(n + 1) == 2.0 * Delay(n)
  {
    Pow2Grows(0, n - 1);
    Pow2Grows(n - 1, n);
    Pow2Small();
    if n <= 6 {
      Pow2Grows(n - 1, 5);
    } else {
      Pow2Grows(6, n - 1);
    }
  }

  lemma Scaled(delay: real, jitter: real)
    requires 60.0 <= delay <= 3600.0 && ValidJitter(jitter)
    ensures 48.0 <= delay * (1.0 + jitter) < 4320.0
  {
    var scale := 1.0 + jitter;
    assert delay * scale >= delay * 0.8;
    assert delay * scale <= 3600.0 * scale;
  }

  /** The wait is the delay with its jitter, to the second below. */
  lemma WaitIsDelay(n: nat, jitter: real)
    requires n >= 1
    ensures var exact := Delay(n) * (1.0 + jitter);
      CalculateBackoff(n, jitter) as real <= exact < CalculateBackoff(n, jitter) as real + 1.0
  {
  }

  /** Every wait is between 48 seconds and 72 minutes. */
  lemma BackoffBounds(n: nat, jitter: real)
    requires n >= 1 && ValidJitter(jitter)
    ensures 48 <= CalculateBackoff(n, jitter) < 4320
  {
    DelayGrows(n);
    Scaled(Delay(n), jitter);
  }
}
