/** The overflow-checked time budgets: windows_supervisor.rs `scaled_timeout` and
    lifecycle_service.rs `readiness_timeout` are the same computation. */
module Budget {
  import opened Text
  import opened Wrappers

  const U32_MAX: nat := 0xFFFF_FFFF
  // The longest Duration in nanoseconds: 2^64 - 1 seconds and 999 999 999 nanoseconds.
  const DURATION_MAX: nat := 0xFFFF_FFFF_FFFF_FFFF * 1_000_000_000 + 999_999_999

  type Duration = n: nat | n <= DURATION_MAX

  function CheckedMul(d: Duration, count: nat): Option<Duration> {
    if d * count <= DURATION_MAX then Some(d * count) else None
  }

  function CheckedAdd(a: Duration, b: Duration): Option<Duration> {
    if a + b <= DURATION_MAX then Some(a + b) else None
  }

  function ScaledTimeout(base: Duration, perSession: Duration, count: nat, cap: Duration): Duration {
    var bounded := if count <= U32_MAX then count else U32_MAX;
    var scaled := match CheckedMul(perSession, bounded)
      case Some(total) => CheckedAdd(base, total)
      case None => None;
    Min(match scaled case Some(d) => d case None => cap, cap)
  }

  // No overflow path is observable: the checked computation is the unbounded formula.
  lemma ScaledTimeoutIsUnboundedFormula(base: Duration, perSession: Duration, count: nat, cap: Duration)
    ensures ScaledTimeout(base, perSession, count, cap) == Min(cap, base + perSession * Min(count, U32_MAX))
  {
    var total := perSession * Min(count, U32_MAX);
    if total > DURATION_MAX {
      assert base + total > cap;
    }
  }

  // A larger fleet never gets a shorter budget.
  lemma ScaledTimeoutIsMonotone(base: Duration, perSession: Duration, m: nat, n: nat, cap: Duration)
    requires m <= n
    ensures ScaledTimeout(base, perSession, m, cap) <= ScaledTimeout(base, perSession, n, cap) <= cap
  {
    ScaledTimeoutIsUnboundedFormula(base, perSession, m, cap);
    ScaledTimeoutIsUnboundedFormula(base, perSession, n, cap);
    MulMonotone(perSession, Min(m, U32_MAX), Min(n, U32_MAX));
  }

  lemma MulMonotone(k: nat, m: nat, n: nat)
    requires m <= n
    ensures k * m <= k * n
  {
    assert k * n == k * m + k * (n - m);
    assert k * (n - m) >= 0;
  }
}
