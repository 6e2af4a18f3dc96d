/** The provider circuit breaker, and the call history it stands for. */
module CircuitBreaker {
  import opened Wrappers

  type Key = (int, int)

  datatype CircuitState = CircuitState(failures: int, openedUntil: int)

  datatype Policy = Policy(threshold: nat, recovery: int)
  {
    predicate Valid() { 1 <= threshold <= 100 && 1 <= recovery <= 3600 }
  }

  type States = map<Key, CircuitState>

  // ---------------------------------------------------------------- one call, on the table of states

  /** The new table, and whether the call is admitted. */
  function BeforeOn(p: Policy, s: States, key: Key, now: int): (States, bool) {
    if key !in s then (s, true)
    else if s[key].openedUntil > now then (s, false)
    else if s[key].openedUntil != 0 then (s[key := CircuitState(p.threshold - 1, 0)], true)
    else (s, true)
  }

  function SuccessOn(s: States, key: Key): States {
    s - {key}
  }

  function FailureOn(p: Policy, s: States, key: Key, retryable: bool, now: int): States {
    if !retryable then s - {key}
    else
      var before := if key in s then s[key] else CircuitState(0, 0);
      s[key := CircuitState(before.failures + 1,
        if before.failures + 1 >= p.threshold then now + p.recovery else before.openedUntil)]
  }

  class InMemoryProviderCircuitBreaker {
    const policy: Policy
    var states: States

    constructor (policy: Policy)
      ensures this.policy == policy && states == map[]
    {
      this.policy := policy;
      states := map[];
    }

    method BeforeCall(key: Key, now: int) returns (admitted: bool)
      modifies this
      ensures (states, admitted) == BeforeOn(policy, old(states), key, now)
    {
      if key !in states {
        return true;
      }
      if states[key].openedUntil > now {
        return false;
      }
      if states[key].openedUntil != 0 {
        states := states[key := states[key].(openedUntil := 0)];
        states := states[key := states[key].(failures := policy.threshold - 1)];
        assert states == old(states)[key := CircuitState(policy.threshold - 1, 0)];
      }
      return true;
    }

    method RecordSuccess(key: Key)
      modifies this
      ensures states == SuccessOn(old(states), key)
    {
      states := states - {key};
    }

    method RecordFailure(key: Key, retryable: bool, now: int)
      modifies this
      ensures states == FailureOn(policy, old(states), key, retryable, now)
    {
      if !retryable {
        states := states - {key};
        return;
      }
      if key !in states {
        states := states[key := CircuitState(0, 0)];
      }
      states := states[key := states[key].(failures := states[key].failures + 1)];
      if states[key].failures >= policy.threshold {
        states := states[key := states[key].(openedUntil := now + policy.recovery)];
      }
      assert states == old(states)[key := states[key]];
    }
  }

  // ---------------------------------------------------------------- histories

  datatype Op =
    | Before(key: Key, now: int)
    | Succeed(key: Key)
    | Fail(key: Key, retryable: bool, now: int)

  function Apply(p: Policy, s: States, op: Op): States {
    match op
    case Before(key, now) => BeforeOn(p, s, key, now).0
    case Succeed(key) => SuccessOn(s, key)
    case Fail(key, retryable, now) => FailureOn(p, s, key, retryable, now)
  }

  /**
   The clock is monotonic in the source, so never negative: the end of a window is then never zero, the value that
   stands for "closed".
   */
  ghost predicate History(p: Policy, ops: seq<Op>, ss: seq<States>) {
    && p.Valid()
    && |ss| == |ops| + 1
    && ss[0] == map[]
    && (forall i {:trigger ops[i]} :: 0 <= i < |ops| ==> ss[i + 1] == Apply(p, ss[i], ops[i]))
    && (forall i {:trigger ops[i]} :: 0 <= i < |ops| && !ops[i].Succeed? ==> 0 <= ops[i].now)
  }

  predicate Admits(p: Policy, s: States, key: Key, now: int) {
    BeforeOn(p, s, key, now).1
  }

  // ---------------------------------------------------------------- what the history itself says

  predicate Resets(op: Op, key: Key) {
    op.key == key && (op.Succeed? || (op.Fail? && !op.retryable))
  }

  predicate FailsRetryably(op: Op, key: Key) {
    op.key == key && op.Fail? && op.retryable
  }

  /** Retryable failures of the key among the first n operations since its last success or non-retryable failure. */
  function Failures(ops: seq<Op>, n: nat, key: Key): nat
    requires n <= |ops|
  {
    if n == 0 || Resets(ops[n - 1], key) then 0
    else Failures(ops, n - 1, key) + if FailsRetryably(ops[n - 1], key) then 1 else 0
  }

  /** When the last of those failures came. */
  function LastFailure(ops: seq<Op>, n: nat, key: Key): int
    requires n <= |ops|
  {
    if n == 0 then 0
    else if FailsRetryably(ops[n - 1], key) then ops[n - 1].now
    else LastFailure(ops, n - 1, key)
  }

  /** Whether, since that failure, some call of the key asked after the recovery window had passed. */
  predicate Probed(p: Policy, ops: seq<Op>, n: nat, key: Key)
    requires n <= |ops|
  {
    if n == 0 || FailsRetryably(ops[n - 1], key) then false
    else
      || (ops[n - 1].Before? && ops[n - 1].key == key && ops[n - 1].now >= LastFailure(ops, n - 1, key) + p.recovery)
      || Probed(p, ops, n - 1, key)
  }

  /** The state of a key, read off the history alone. */
  predicate Mirrors(p: Policy, s: States, key: Key, failures: nat, last: int, probed: bool) {
    if failures == 0 then key !in s
    else if failures < p.threshold then key in s && s[key] == CircuitState(failures, 0)
    else if probed then key in s && s[key] == CircuitState(p.threshold - 1, 0)
    else key in s && s[key].failures >= p.threshold && s[key].openedUntil == last + p.recovery != 0
  }

  lemma {:induction false} StateMirrorsHistory(p: Policy, ops: seq<Op>, ss: seq<States>, n: nat, key: Key)
    requires History(p, ops, ss) && n <= |ops|
    ensures Mirrors(p, ss[n], key, Failures(ops, n, key), LastFailure(ops, n, key), Probed(p, ops, n, key))
  {
    if n > 0 {
      StateMirrorsHistory(p, ops, ss, n - 1, key);
      var op := ops[n - 1];
      assert ss[n] == Apply(p, ss[n - 1], op);
    }
  }

  /**
   A call is refused exactly when at least the threshold of retryable failures came since the last success or
   non-retryable failure, the recovery window of the latest failure has not passed, and no call has been let through
   as a probe since that failure.
   */
  lemma RefusedExactly(p: Policy, ops: seq<Op>, ss: seq<States>, n: nat, key: Key, now: int)
    requires History(p, ops, ss) && n <= |ops| && 0 <= now
    ensures !Admits(p, ss[n], key, now) <==>
              && Failures(ops, n, key) >= p.threshold
              && now < LastFailure(ops, n, key) + p.recovery
              && !Probed(p, ops, n, key)
  {
    StateMirrorsHistory(p, ops, ss, n, key);
  }

  /** After a probe is let through, one retryable failure opens the circuit again for a whole window. */
  lemma ProbeFailureReopens(p: Policy, ops: seq<Op>, ss: seq<States>, n: nat, key: Key, now: int)
    requires History(p, ops, ss) && n + 2 <= |ops|
    requires Failures(ops, n, key) >= p.threshold
    requires ops[n].Before? && ops[n].key == key && Admits(p, ss[n], key, ops[n].now)
    requires FailsRetryably(ops[n + 1], key) && 0 <= now < ops[n + 1].now + p.recovery
    ensures !Admits(p, ss[n + 2], key, now)
  {
    assert Failures(ops, n + 1, key) == Failures(ops, n, key);
    RefusedExactly(p, ops, ss, n + 2, key, now);
  }

  /** Two histories that treat a key alike leave it in equal standing, whatever they do to other keys. */
  lemma {:induction false} OtherKeysDoNotMatter(
    p: Policy, ops: seq<Op>, ss: seq<States>, n: nat, m: nat, key: Key, now: int)
    requires History(p, ops, ss) && n <= m <= |ops|
    requires forall i :: n <= i < m ==> ops[i].key != key
    ensures Admits(p, ss[m], key, now) == Admits(p, ss[n], key, now)
    ensures key in ss[m] <==> key in ss[n]
    ensures key in ss[n] ==> ss[m][key] == ss[n][key]
  {
    if n < m {
      OtherKeysDoNotMatter(p, ops, ss, n, m - 1, key, now);
      assert ss[m] == Apply(p, ss[m - 1], ops[m - 1]);
    }
  }
}
