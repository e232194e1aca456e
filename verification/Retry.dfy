/** RetryPolicy.Delay of pkg/jobs/retry.go. */
module Retry {
  import opened Base

  type Int64 = x: int | -0x8000_0000_0000_0000 <= x < 0x8000_0000_0000_0000

  /** Delays in nanoseconds. */
  datatype RetryPolicy = RetryPolicy(initial: Int64, maximum: Int64)

  predicate ValidPolicy(policy: RetryPolicy) {
    0 <= policy.initial <= policy.maximum <= MAX_RETRY_DELAY
  }

  function Pow2(n: nat): (p: int)
    ensures p > 0
  {
    if n == 0 then 1 else 2 * Pow2(n - 1)
  }

  /** The delay before the retry of a one-based attempt: doubled per attempt and capped. */
  function DelayAfter(policy: RetryPolicy, attempt: int): int
    requires attempt >= 1
  {
    Min(policy.initial * Pow2(attempt - 1), policy.maximum)
  }

  lemma {:induction false} Pow2Monotone(a: nat, b: nat)
    requires a <= b
    ensures Pow2(a) <= Pow2(b)
    decreases b
  {
    if a < b {
      Pow2Monotone(a, b - 1);
    }
  }

  lemma ScaledPow2(x: int, a: nat, b: nat)
    requires x >= 0 && a <= b
    ensures x * Pow2(a) <= x * Pow2(b)
  {
  }

  lemma MulMonotone(x: int, p: int, q: int)
    requires x >= 0 && p <= q
    ensures x * p <= x * q
  {
  }

  lemma DoubleScaled(x: int, n: nat)
    ensures x * Pow2(n + 1) == 2 * (x * Pow2(n))
  {
  }

  lemma Pow2Of47()
    ensures Pow2(47) == 0x8000_0000_0000
  {
    assert Pow2(8) == 0x100;
    assert Pow2(16) == 0x1_0000;
    assert Pow2(24) == 0x100_0000;
    assert Pow2(32) == 0x1_0000_0000;
    assert Pow2(40) == 0x100_0000_0000;
  }

  /** A positive delay that is still below 24 hours has been doubled at most 46 times. */
  lemma FewDoublings(initial: int, rounds: nat)
    requires initial >= 1 && initial * Pow2(rounds) < MAX_RETRY_DELAY
    ensures rounds < 47
  {
    MulMonotone(Pow2(rounds), 1, initial);
    if rounds >= 47 {
      Pow2Monotone(47, rounds);
      Pow2Of47();
    }
  }

  /** The saturating loop, on 64-bit durations: no product leaves the type, and however large the
      attempt number is the loop runs at most 47 times, since 2^47 ns exceeds 24 hours. */
  method Delay(policy: RetryPolicy, attempt: Int64) returns (r: Option<Int64>, ghost rounds: nat)
    ensures r.Some? <==> attempt >= 1 && ValidPolicy(policy)
    ensures r.Some? ==> r.value == DelayAfter(policy, attempt)
    ensures rounds <= 47
  {
    rounds := 0;
    if attempt < 1 || policy.initial < 0 || policy.maximum < 0 || policy.maximum > MAX_RETRY_DELAY || policy.initial > policy.maximum {
      return None, rounds;
    }
    if policy.initial == 0 {
      return Some(0), rounds;
    }
    var delay: Int64 := policy.initial;
    var current: Int64 := 1;
    while current < attempt && delay < policy.maximum
      invariant 1 <= current <= attempt && rounds == current - 1
      invariant delay == policy.initial * Pow2(rounds) && delay <= policy.maximum
      invariant rounds <= 47
    {
      FewDoublings(policy.initial, rounds);
      DoubleScaled(policy.initial, rounds);
      rounds := rounds + 1;
      if delay > policy.maximum / 2 {
        ScaledPow2(policy.initial, rounds, attempt - 1);
        return Some(policy.maximum), rounds;
      }
      delay := delay * 2;
      current := current + 1;
    }
    ScaledPow2(policy.initial, rounds, attempt - 1);
    r := Some(if delay < policy.maximum then delay else policy.maximum);
  }

  /** Later attempts never wait less, and every delay lies within the policy. */
  lemma DelayMonotone(policy: RetryPolicy, a: int, b: int)
    requires ValidPolicy(policy) && 1 <= a <= b
    ensures policy.initial <= DelayAfter(policy, a) <= DelayAfter(policy, b) <= policy.maximum
  {
    ScaledPow2(policy.initial, 0, a - 1);
    ScaledPow2(policy.initial, a - 1, b - 1);
  }

  /** A policy in whole microseconds gives delays in whole microseconds. */
  lemma DelayWholeMicroseconds(policy: RetryPolicy, attempt: int)
    requires ValidPolicy(policy) && attempt >= 1
    requires policy.initial % MICROSECOND == 0 && policy.maximum % MICROSECOND == 0
    ensures DelayAfter(policy, attempt) % MICROSECOND == 0
  {
    var k := policy.initial / MICROSECOND;
    var p := Pow2(attempt - 1);
    assert policy.initial * p == MICROSECOND * (k * p);
  }
}
