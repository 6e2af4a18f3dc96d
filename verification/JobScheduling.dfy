/** Which job a claim takes, how many jobs a tenant runs at once, and who survives the recovery sweep. */
module JobScheduling {
  import opened Wrappers
  import opened JobLifecycle
  import opened JobQueue
  import opened JobLog
  import opened JobFencing

  // ---------------------------------------------------------------- the claim order

  /**
   With no rows locked by others, a claim takes the least eligible row, and finds nothing exactly when
   every due row belongs to a tenant that already runs as many jobs as it may.
   */
  lemma ClaimTakesLeast(config: Config, t: Table, workerId: string, token: nat, now: int)
    ensures ClaimOn(config, t, workerId, false, token, now, {}).1.Success?
    ensures var taken := ClaimOn(config, t, workerId, false, token, now, {}).1.value;
      match taken
      case Some(k) => Eligible(config, t.jobs, now, k) && LeastEligible(config, t.jobs, now, k)
      case None => AllAtLimit(config, t.jobs, now)
    ensures ClaimOn(config, t, workerId, false, token, now, {}).1.value.Some? ==> !AllAtLimit(config, t.jobs, now)
  {
    var candidates := Candidates(config, t.jobs, now, {});
    if candidates != {} {
      FirstExists(t.jobs, candidates);
    } else {
      forall o | Due(t.jobs, now, o) ensures |RunningOf(t.jobs, o.tenant)| >= config.Limit(o.tenant) {
        assert o !in candidates;
      }
    }
  }

  predicate LeastEligible(config: Config, jobs: map<Key, Job>, now: int, k: Key)
    requires k in jobs
  {
    forall o :: o in jobs && Eligible(config, jobs, now, o) ==> o == k || Before(jobs, k, o)
  }

  predicate AllAtLimit(config: Config, jobs: map<Key, Job>, now: int) {
    forall o :: o in jobs && Due(jobs, now, o) ==> |RunningOf(jobs, o.tenant)| >= config.Limit(o.tenant)
  }

  // ---------------------------------------------------------------- the tenant cap

  lemma SubsetCardinality(a: set<Key>, b: set<Key>)
    requires a <= b
    ensures |a| <= |b|
    decreases b
  {
    if a != {} {
      var x :| x in a;
      SubsetCardinality(a - {x}, b - {x});
    }
  }

  /** Only a claim adds a running row, and only its own. */
  lemma RunningAfter(config: Config, t: Table, op: Op, tenant: Id)
    ensures op.OpClaim? ==>
      var r := ClaimOn(config, t, op.workerId, op.blank, op.token, op.now, op.locked).1;
      RunningOf(Apply(config, t, op).jobs, tenant) <= RunningOf(t.jobs, tenant) +
        if r.Success? && r.value.Some? && r.value.value.tenant == tenant then {r.value.value} else {}
    ensures !op.OpClaim? ==> RunningOf(Apply(config, t, op).jobs, tenant) <= RunningOf(t.jobs, tenant)
  {
    var t' := Apply(config, t, op);
    if op.OpRecover? && StaleSelection(t, op.rows, op.now) && RecoverRows(config, t, op.rows, op.now).Some? {
      forall k | k in RunningOf(t'.jobs, tenant) ensures k in RunningOf(t.jobs, tenant) {
        RecoverRowsPointwise(config, t, op.rows, op.now, k);
      }
    }
  }

  lemma ClaimedWasEligible(
    config: Config, t: Table, workerId: string, blank: bool, token: nat, now: int, locked: set<Key>, k: Key)
    requires ClaimOn(config, t, workerId, blank, token, now, locked).1 == Success(Some(k))
    ensures Eligible(config, t.jobs, now, k)
  {
  }

  lemma CapStep(config: Config, t: Table, op: Op, tenant: Id)
    requires |RunningOf(t.jobs, tenant)| <= config.Limit(tenant)
    ensures |RunningOf(Apply(config, t, op).jobs, tenant)| <= config.Limit(tenant)
  {
    var before, after := RunningOf(t.jobs, tenant), RunningOf(Apply(config, t, op).jobs, tenant);
    RunningAfter(config, t, op, tenant);
    hide Apply, ClaimOn, RunningOf;
    if op.OpClaim? {
      var r := ClaimOn(config, t, op.workerId, op.blank, op.token, op.now, op.locked).1;
      if r.Success? && r.value.Some? && r.value.value.tenant == tenant {
        ClaimedWasEligible(config, t, op.workerId, op.blank, op.token, op.now, op.locked, r.value.value);
        SubsetCardinality(after, before + {r.value.value});
      } else {
        SubsetCardinality(after, before);
      }
    } else {
      SubsetCardinality(after, before);
    }
  }

  /** No tenant ever runs more jobs than its limit. */
  lemma {:induction false} TenantCap(config: Config, ops: seq<Op>, ts: seq<Table>, i: nat, tenant: Id)
    requires History(config, ops, ts) && i <= |ops|
    requires config.Limit(tenant) >= 0
    ensures |RunningOf(ts[i].jobs, tenant)| <= config.Limit(tenant)
  {
    hide Apply;
    if i == 0 {
      assert RunningOf(ts[0].jobs, tenant) == {};
    } else {
      TenantCap(config, ops, ts, i - 1, tenant);
      assert ts[i] == Apply(config, ts[i - 1], ops[i - 1]);
      CapStep(config, ts[i - 1], ops[i - 1], tenant);
    }
  }

  // ---------------------------------------------------------------- heartbeats against recovery

  /** When the holder last claimed or beat, looking back from step `i` to its claim at step `c`. */
  function LastBeat(ops: seq<Op>, c: nat, i: nat, k: Key, token: nat): int
    requires c < i <= |ops| && ops[c].OpClaim?
    decreases i
  {
    if i == c + 1 then ops[c].now
    else if ops[i - 1].OpHeartbeat? && ops[i - 1].key == k && ops[i - 1].token == token then ops[i - 1].now
    else LastBeat(ops, c, i - 1, k, token)
  }

  /** Until step `j` the holder's beats and the sweeps all come less than a lease after its last beat. */
  predicate Attended(config: Config, ops: seq<Op>, c: nat, j: nat, k: Key, token: nat)
    requires c < j <= |ops| && ops[c].OpClaim?
  {
    forall i ::
      c < i < j && (ops[i].OpRecover? || (ops[i].OpHeartbeat? && ops[i].key == k && ops[i].token == token)) ==>
      ops[i].now < LastBeat(ops, c, i, k, token) + config.policy.leaseSeconds
  }

  /** Until step `j` nobody cancels the job and the holder itself does not finish it. */
  predicate LeftRunning(ops: seq<Op>, c: nat, j: nat, k: Key, token: nat)
    requires c < j <= |ops|
  {
    forall i :: c < i < j ==>
      && !(ops[i].OpCancel? && ops[i].key == k)
      && !((ops[i].OpComplete? || ops[i].OpFail?) && ops[i].key == k && ops[i].token == token)
  }

  predicate RunsUntil(t: Table, k: Key, token: nat, expires: int) {
    && k in t.jobs && t.jobs[k].status.Running?
    && t.jobs[k].leaseHash == Some(LeaseHash(token)) && t.jobs[k].leaseExpires == Some(expires)
  }

  lemma AttendedStep(config: Config, t: Table, op: Op, k: Key, token: nat, beat: int)
    requires RunsUntil(t, k, token, beat + config.policy.leaseSeconds)
    requires !(op.OpCancel? && op.key == k)
    requires !((op.OpComplete? || op.OpFail?) && op.key == k && op.token == token)
    requires op.OpRecover? || (op.OpHeartbeat? && op.key == k && op.token == token) ==>
      op.now < beat + config.policy.leaseSeconds
    ensures RunsUntil(Apply(config, t, op), k, token,
      config.policy.leaseSeconds + if op.OpHeartbeat? && op.key == k && op.token == token then op.now else beat)
  {
    if op.OpRecover? && StaleSelection(t, op.rows, op.now) && RecoverRows(config, t, op.rows, op.now).Some? {
      RecoverRowsPointwise(config, t, op.rows, op.now, k);
    }
  }

  lemma AttendedBefore(config: Config, ops: seq<Op>, c: nat, j: nat, k: Key, token: nat)
    requires c + 1 < j <= |ops| && ops[c].OpClaim?
    requires Attended(config, ops, c, j, k, token) && LeftRunning(ops, c, j, k, token)
    ensures Attended(config, ops, c, j - 1, k, token) && LeftRunning(ops, c, j - 1, k, token)
    ensures var op := ops[j - 1];
      && !(op.OpCancel? && op.key == k)
      && !((op.OpComplete? || op.OpFail?) && op.key == k && op.token == token)
      && (op.OpRecover? || (op.OpHeartbeat? && op.key == k && op.token == token) ==>
            op.now < LastBeat(ops, c, j - 1, k, token) + config.policy.leaseSeconds)
  {
  }

  lemma GrantStarts(config: Config, t: Table, op: Op, k: Key, token: nat)
    requires Grants(config, t, op, k, token)
    ensures op.OpClaim? && RunsUntil(Apply(config, t, op), k, token, op.now + config.policy.leaseSeconds)
  {
  }

  /** An attended row keeps its token, and a lease that reaches past the last beat. */
  lemma {:induction false} AttendedRuns(
    config: Config, ops: seq<Op>, ts: seq<Table>, c: nat, j: nat, k: Key, token: nat)
    requires History(config, ops, ts) && c < j <= |ops|
    requires ops[c].OpClaim? && Grants(config, ts[c], ops[c], k, token)
    requires Attended(config, ops, c, j, k, token) && LeftRunning(ops, c, j, k, token)
    ensures RunsUntil(ts[j], k, token, LastBeat(ops, c, j, k, token) + config.policy.leaseSeconds)
    decreases j
  {
    hide Apply, Grants, RunsUntil, Attended, LeftRunning;
    assert ts[j] == Apply(config, ts[j - 1], ops[j - 1]);
    if j == c + 1 {
      GrantStarts(config, ts[c], ops[c], k, token);
    } else {
      AttendedBefore(config, ops, c, j, k, token);
      AttendedRuns(config, ops, ts, c, j - 1, k, token);
      AttendedStep(config, ts[j - 1], ops[j - 1], k, token, LastBeat(ops, c, j - 1, k, token));
    }
  }

  lemma BeatInTime(config: Config, t: Table, op: Op, k: Key, token: nat, expires: int)
    requires RunsUntil(t, k, token, expires)
    requires op.OpHeartbeat? && op.key == k && op.token == token && op.now < expires
    ensures Authorized(config, t, op, k, token)
  {
  }

  /** A holder that beats more often than the lease lasts is never displaced by the sweep, and every beat succeeds. */
  lemma AttendedHolderKeepsJob(config: Config, ops: seq<Op>, ts: seq<Table>, c: nat, j: nat, k: Key, token: nat)
    requires History(config, ops, ts) && c < j <= |ops|
    requires ops[c].OpClaim? && Grants(config, ts[c], ops[c], k, token)
    requires Attended(config, ops, c, j, k, token) && LeftRunning(ops, c, j, k, token)
    ensures RunsUntil(ts[j], k, token, LastBeat(ops, c, j, k, token) + config.policy.leaseSeconds)
    ensures j < |ops| && ops[j].OpHeartbeat? && ops[j].key == k && ops[j].token == token
         && ops[j].now < LastBeat(ops, c, j, k, token) + config.policy.leaseSeconds
        ==> Authorized(config, ts[j], ops[j], k, token)
  {
    hide Apply, Grants, RunsUntil, Authorized, Attended, LeftRunning;
    AttendedRuns(config, ops, ts, c, j, k, token);
    var expires := LastBeat(ops, c, j, k, token) + config.policy.leaseSeconds;
    if j < |ops| && ops[j].OpHeartbeat? && ops[j].key == k && ops[j].token == token && ops[j].now < expires {
      BeatInTime(config, ts[j], ops[j], k, token, expires);
    }
  }
}
