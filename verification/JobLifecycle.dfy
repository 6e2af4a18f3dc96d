/** Job statuses, the table of legal status changes and the retry back-off. */
module JobLifecycle {
  import opened Wrappers

  datatype JobStatus =
    | Queued | Running | RetryWait | Completed | Partial | Failed | Cancelled | DeadLetter

  /** Statuses that `cancel` leaves alone. */
  predicate Terminal(s: JobStatus) {
    s.Completed? || s.Partial? || s.Failed? || s.Cancelled? || s.DeadLetter?
  }

  /** Statuses from which a job may be requeued. */
  predicate Retryable(s: JobStatus) {
    s.Completed? || s.Partial? || s.Failed? || s.DeadLetter?
  }

  /** The source's table of legal edges; no repository method consults it. */
  function Allowed(source: JobStatus): set<JobStatus> {
    match source
    case Queued => {Running, Cancelled}
    case RetryWait => {Running, Cancelled}
    case Running => {Completed, Partial, RetryWait, Failed, Cancelled, DeadLetter}
    case Completed => {Queued}
    case Partial => {Queued}
    case Failed => {Queued}
    case DeadLetter => {Queued}
    case Cancelled => {}
  }

  datatype JobPolicy = JobPolicy(maxAttempts: int, leaseSeconds: int, baseBackoff: int, maximumBackoff: int) {
    /** The bounds the policy record checks when it is built. */
    predicate Valid() {
      && 1 <= maxAttempts <= 20
      && 5 <= leaseSeconds <= 3600
      && 1 <= baseBackoff <= maximumBackoff <= 86_400
    }
  }

  function Min(a: int, b: int): int { if a < b then a else b }

  function Pow2(n: nat): (p: nat) {
    if n == 0 then 1 else 2 * Pow2(n - 1)
  }

  /** Back-off in seconds; `None` is the rejected attempt count. The exponent is capped at 30. */
  function RetryDelay(policy: JobPolicy, attempt: int): (delay: Option<int>)
  {
    if attempt < 1 then None
    else Some(Min(policy.maximumBackoff, policy.baseBackoff * Pow2(Min(attempt - 1, 30))))
  }

  /** The back-off the documentation describes, with no cap on the exponent. */
  function UncappedDelay(policy: JobPolicy, attempt: int): int
    requires attempt >= 1
  {
    Min(policy.maximumBackoff, policy.baseBackoff * Pow2(attempt - 1))
  }

  lemma {:induction false} Pow2Monotone(m: nat, n: nat)
    requires m <= n
    ensures 1 <= Pow2(m) <= Pow2(n)
    decreases n
  {
    if m < n {
      Pow2Monotone(m, n - 1);
    } else if n > 0 {
      Pow2Monotone(n - 1, n - 1);
    }
  }

  lemma Pow2Of30()
    ensures Pow2(30) == 1_073_741_824
  {
    assert Pow2(10) == 1024;
    assert Pow2(20) == 1024 * 1024;
  }

  lemma MulMonotone(b: int, x: int, y: int)
    requires 0 <= b && x <= y
    ensures b * x <= b * y
  {
  }

  /** Capping the exponent never changes the delay, because the ceiling is reached first. */
  lemma RetryDelayIsUncapped(policy: JobPolicy, attempt: int)
    requires policy.Valid() && attempt >= 1
    ensures RetryDelay(policy, attempt) == Some(UncappedDelay(policy, attempt))
  {
    if attempt - 1 > 30 {
      Pow2Of30();
      Pow2Monotone(30, attempt - 1);
      MulMonotone(policy.baseBackoff, Pow2(30), Pow2(attempt - 1));
    }
  }

  /** The delay stays between the two configured bounds and never shrinks from one attempt to the next. */
  lemma RetryDelayGrows(policy: JobPolicy, first: int, second: int)
    requires policy.Valid() && 1 <= first <= second
    ensures RetryDelay(policy, first).Some? && RetryDelay(policy, second).Some?
    ensures policy.baseBackoff
         <= RetryDelay(policy, first).value
         <= RetryDelay(policy, second).value
         <= policy.maximumBackoff
  {
    var m, n := Min(first - 1, 30), Min(second - 1, 30);
    Pow2Monotone(m, n);
    MulMonotone(policy.baseBackoff, Pow2(m), Pow2(n));
    MulMonotone(policy.baseBackoff, 1, Pow2(m));
  }
}
