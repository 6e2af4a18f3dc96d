/** What single transactions do to a job at any point of any run, said on the rows themselves. */
module JobEffects {
  import opened Wrappers
  import opened JobLifecycle
  import opened JobQueue
  import opened JobLog
  import F = JobFencing

  // ---------------------------------------------------------------- failed and swept attempts

  /**
   A fail under a live lease, with a reason that fits, leaves FAILED, DEAD_LETTER at the attempt limit, or RETRY_WAIT
   until the back-off is over; any other fail changes nothing.
   */
  lemma FailedAttempt(config: Config, ops: seq<Op>, ts: seq<Table>, i: nat)
    requires config.policy.Valid() && History(config, ops, ts) && AllUnattempted(ops)
    requires i < |ops| && ops[i].OpFail?
    ensures var op, before, after := ops[i], ts[i].jobs, ts[i + 1].jobs;
      if LeaseLives(before, op.key, op.token, op.now) && 0 < |op.reason| <= 128 then
        && op.key in after && after == before[op.key := after[op.key]]
        && 1 <= before[op.key].attempts <= config.policy.maxAttempts
        && FailedRow(config.policy, before[op.key], after[op.key], op.retryable, op.reason, op.now)
      else ts[i + 1] == ts[i]
  {
    var op := ops[i];
    RunKeeps(config, ops, ts, i, op.key);
    assert ts[i + 1] == Apply(config, ts[i], op);
    if LeaseLives(ts[i].jobs, op.key, op.token, op.now) && 0 < |op.reason| <= 128 {
      FailWrites(config, ts[i], op.key, op.token, op.reason, op.retryable, op.now);
    }
  }

  /** A sweep over a possible answer of its query never raises and treats every selected row as a failed attempt. */
  lemma SweptAttempts(config: Config, ops: seq<Op>, ts: seq<Table>, i: nat)
    requires config.policy.Valid() && History(config, ops, ts) && AllUnattempted(ops)
    requires i < |ops| && ops[i].OpRecover? && StaleSelection(ts[i], ops[i].rows, ops[i].now)
    ensures SweptRows(config, ts[i].jobs, ts[i + 1].jobs, ops[i].rows, ops[i].now)
  {
    forall j ensures JobInv(config, ts[i], j) {
      RunKeeps(config, ops, ts, i, j);
    }
    hide FailedRow, JobInv, RecoverRows;
    RecoverRowsSucceed(config, ts[i], ops[i].rows, ops[i].now);
    assert ts[i + 1] == Apply(config, ts[i], ops[i]);
    SweepWrites(config, ts[i], ops[i].rows, ops[i].now);
  }

  // ---------------------------------------------------------------- the back-off is waited for

  /** A claim takes the job. */
  ghost predicate Takes(config: Config, t: Table, op: Op, k: Key) {
    op.OpClaim? && F.Grants(config, t, op, k, op.token)
  }

  /** Steps a to b neither requeue the job nor claim it. */
  ghost predicate LeftAlone(config: Config, ops: seq<Op>, ts: seq<Table>, a: nat, b: nat, k: Key)
    requires a <= b <= |ops| < |ts|
  {
    forall m :: a <= m < b ==> !(ops[m].OpRequeue? && ops[m].key == k) && !Takes(config, ts[m], ops[m], k)
  }

  /** The row as it was, or cancelled. */
  predicate StillWaiting(before: Job, jobs: map<Key, Job>, k: Key) {
    k in jobs && (jobs[k] == before || jobs[k].status == Cancelled)
  }

  lemma WaitingStep(config: Config, t: Table, op: Op, k: Key, row: Job)
    requires StillWaiting(row, t.jobs, k) && row.status in {Queued, RetryWait}
    requires !(op.OpRequeue? && op.key == k) && !Takes(config, t, op, k)
    ensures StillWaiting(row, Apply(config, t, op).jobs, k)
  {
    if op.OpRecover? && StaleSelection(t, op.rows, op.now) && RecoverRows(config, t, op.rows, op.now).Some? {
      RecoverRowsPointwise(config, t, op.rows, op.now, k);
    }
  }

  lemma {:induction false} WaitsOn(config: Config, ops: seq<Op>, ts: seq<Table>, i: nat, j: nat, k: Key)
    requires History(config, ops, ts) && i <= j <= |ops| && k in ts[i].jobs
    requires ts[i].jobs[k].status in {Queued, RetryWait} && LeftAlone(config, ops, ts, i, j, k)
    ensures StillWaiting(ts[i].jobs[k], ts[j].jobs, k)
  {
    hide Apply, Takes;
    if i < j {
      WaitsOn(config, ops, ts, i, j - 1, k);
      assert ts[j] == Apply(config, ts[j - 1], ops[j - 1]);
      WaitingStep(config, ts[j - 1], ops[j - 1], k, ts[i].jobs[k]);
    }
  }

  /** The next claim of a waiting job, if nobody requeues it before, comes when the job is due, whatever the clocks. */
  lemma NextClaimIsDue(config: Config, ops: seq<Op>, ts: seq<Table>, i: nat, j: nat, k: Key)
    requires History(config, ops, ts) && i <= j < |ops| && k in ts[i].jobs
    requires ts[i].jobs[k].status in {Queued, RetryWait} && LeftAlone(config, ops, ts, i, j, k)
    requires Takes(config, ts[j], ops[j], k)
    ensures ops[j].now >= ts[i].jobs[k].availableAt
  {
    WaitsOn(config, ops, ts, i, j, k);
    TakesDue(config, ts[j], ops[j], k);
    hide Takes;
  }

  lemma TakesDue(config: Config, t: Table, op: Op, k: Key)
    requires Takes(config, t, op, k)
    ensures k in t.jobs && t.jobs[k].status in {Queued, RetryWait} && t.jobs[k].availableAt <= op.now
  {
  }

  lemma DueAfterFailure(policy: JobPolicy, before: Job, after: Job, reason: string, now: int)
    requires policy.Valid() && FailedRow(policy, before, after, true, reason, now)
             && before.attempts < policy.maxAttempts
    ensures before.attempts >= 1 && after.status == RetryWait
    ensures after.availableAt == now + Min(policy.maximumBackoff, policy.baseBackoff * Pow2(before.attempts - 1))
  {
  }

  /** After an accepted retryable failure below the attempt limit the job is next claimed when its back-off is over. */
  lemma BackOffIsWaited(config: Config, ops: seq<Op>, ts: seq<Table>, i: nat, j: nat)
    requires config.policy.Valid() && History(config, ops, ts) && AllUnattempted(ops) && i < j < |ops|
    requires ops[i].OpFail? && ops[i].retryable && 0 < |ops[i].reason| <= 128
    requires LeaseLives(ts[i].jobs, ops[i].key, ops[i].token, ops[i].now)
    requires ts[i].jobs[ops[i].key].attempts < config.policy.maxAttempts
    requires LeftAlone(config, ops, ts, i + 1, j, ops[i].key) && Takes(config, ts[j], ops[j], ops[i].key)
    ensures var n := ts[i].jobs[ops[i].key].attempts;
      && n >= 1
      && ops[j].now >= ops[i].now + Min(config.policy.maximumBackoff, config.policy.baseBackoff * Pow2(n - 1))
  {
    hide Takes, LeftAlone, FailedRow, Min, Apply;
    FailedAttempt(config, ops, ts, i);
    var k := ops[i].key;
    DueAfterFailure(config.policy, ts[i].jobs[k], ts[i + 1].jobs[k], ops[i].reason, ops[i].now);
    hide History;
    NextClaimIsDue(config, ops, ts, i + 1, j, ops[i].key);
  }

  /** The same after a sweep. */
  lemma SweepIsWaited(config: Config, ops: seq<Op>, ts: seq<Table>, i: nat, j: nat, k: Key)
    requires config.policy.Valid() && History(config, ops, ts) && AllUnattempted(ops) && i < j < |ops|
    requires ops[i].OpRecover? && StaleSelection(ts[i], ops[i].rows, ops[i].now) && k in ops[i].rows
    requires ts[i].jobs[k].attempts < config.policy.maxAttempts
    requires LeftAlone(config, ops, ts, i + 1, j, k) && Takes(config, ts[j], ops[j], k)
    ensures var n := ts[i].jobs[k].attempts;
      && n >= 1
      && ops[j].now >= ops[i].now + Min(config.policy.maximumBackoff, config.policy.baseBackoff * Pow2(n - 1))
  {
    hide Takes, LeftAlone, FailedRow, Min, Apply;
    SweptAttempts(config, ops, ts, i);
    assert k in ts[i].jobs;
    hide StaleSelection;
    DueAfterFailure(config.policy, ts[i].jobs[k], ts[i + 1].jobs[k], STALE_LEASE_RECOVERED, ops[i].now);
    hide History, SweptRows;
    NextClaimIsDue(config, ops, ts, i + 1, j, k);
  }

  /** The clocks of the claims of this job never run back. */
  ghost predicate ClaimsInOrder(config: Config, ops: seq<Op>, ts: seq<Table>, k: Key)
    requires |ops| < |ts|
  {
    forall a, b :: 0 <= a < b < |ops| && Takes(config, ts[a], ops[a], k) && Takes(config, ts[b], ops[b], k) ==>
      ops[a].now <= ops[b].now
  }

  /** So until the next requeue no claim at all takes the job before it was due, if their clocks do not run back. */
  lemma {:induction false} EveryClaimIsDue(config: Config, ops: seq<Op>, ts: seq<Table>, i: nat, j: nat, k: Key)
    requires History(config, ops, ts) && i <= j < |ops| && k in ts[i].jobs
    requires ts[i].jobs[k].status in {Queued, RetryWait} && Takes(config, ts[j], ops[j], k)
    requires forall m :: i <= m < j ==> !(ops[m].OpRequeue? && ops[m].key == k)
    requires ClaimsInOrder(config, ops, ts, k)
    ensures ops[j].now >= ts[i].jobs[k].availableAt
    decreases j
  {
    hide Takes;
    if m :| i <= m < j && Takes(config, ts[m], ops[m], k) {
      EveryClaimIsDue(config, ops, ts, i, m, k);
    } else {
      NextClaimIsDue(config, ops, ts, i, j, k);
    }
  }

  /** One job claimed, failed, claimed when due, failed again by a clock that ran back, and claimed too early. */
  function EarlyClaim(policy: JobPolicy, k: Key): seq<Op> {
    var due := Min(policy.maximumBackoff, policy.baseBackoff);
    [OpEnqueue(k.tenant, k, Job(1, 0, 0, Queued, 0, 0, 0, 0, None, None, None)),
     OpClaim("w", false, 0, 0, {}), OpFail(k, 0, "x", true, 0),
     OpClaim("w", false, 1, due, {}), OpFail(k, 1, "x", true, -100_000), OpClaim("w", false, 2, 0, {})]
  }

  ghost function EarlyTables(config: Config, k: Key, n: nat): seq<Table>
    requires n <= 6
    ensures |EarlyTables(config, k, n)| == n + 1
  {
    if n == 0 then [EmptyTable]
    else
      var before := EarlyTables(config, k, n - 1);
      before + [Apply(config, before[n - 1], EarlyClaim(config.policy, k)[n - 1])]
  }

  lemma {:induction false} EarlyTablesAre(config: Config, k: Key, n: nat)
    requires n <= 6
    ensures EarlyTables(config, k, n)[0] == EmptyTable
    ensures forall i :: 0 <= i < n ==>
              EarlyTables(config, k, n)[i + 1] ==
                Apply(config, EarlyTables(config, k, n)[i], EarlyClaim(config.policy, k)[i])
  {
    hide Apply, EarlyClaim;
    if n > 0 {
      EarlyTablesAre(config, k, n - 1);
    }
  }

  lemma OnlyJobIsTaken(config: Config, t: Table, k: Key, token: nat, now: int)
    requires t.jobs.Keys == {k} && t.jobs[k].status in {Queued, RetryWait} && t.jobs[k].availableAt <= now
    requires config.Limit(k.tenant) >= 1
    ensures var op := OpClaim("w", false, token, now, {});
      Takes(config, t, op, k) && Apply(config, t, op).jobs == map[k := ClaimedRow(config, t.jobs[k], token, now)]
  {
    assert RunningOf(t.jobs, k.tenant) == {};
    assert Candidates(config, t.jobs, now, {}) == {k};
    assert IsFirst(t.jobs, {k}, k);
    FirstIsUnique(t.jobs, {k}, k, First(t.jobs, {k}).value);
  }

  lemma OnlyJobFails(config: Config, t: Table, k: Key, token: nat, now: int)
    requires config.policy.Valid() && t.jobs.Keys == {k} && LeaseLives(t.jobs, k, token, now)
    requires 1 <= t.jobs[k].attempts < config.policy.maxAttempts
    ensures var n, t' := t.jobs[k].attempts, Apply(config, t, OpFail(k, token, "x", true, now));
      && t'.jobs.Keys == {k} && t'.jobs[k].status == RetryWait && t'.jobs[k].attempts == n
      && t'.jobs[k].availableAt == now + Min(config.policy.maximumBackoff, config.policy.baseBackoff * Pow2(n - 1))
  {
    FailWrites(config, t, k, token, "x", true, now);
  }

  /** Without that order a claim may come before the back-off of an earlier failure is over. */
  lemma EarlyClaimTakes(config: Config, k: Key)
    requires config.policy.Valid() && config.policy.maxAttempts >= 3 && config.Limit(k.tenant) >= 1
    ensures var ops, ts := EarlyClaim(config.policy, k), EarlyTables(config, k, 6);
      && History(config, ops, ts) && k in ts[3].jobs && ts[3].jobs[k].status == RetryWait
      && Takes(config, ts[5], ops[5], k) && ops[5].now < ts[3].jobs[k].availableAt
  {
    var ops, ts := EarlyClaim(config.policy, k), EarlyTables(config, k, 6);
    EarlyRuns(config, k);
    FirstTable(config, k);
    hide Apply, Takes, EarlyTables, EarlyClaim, ClaimedRow, Pow2, History;
    var d := Min(config.policy.maximumBackoff, config.policy.baseBackoff);
    OpsOfEarlyClaim(config.policy, k);
    assert ts[2] == Apply(config, ts[1], ops[1]) && ts[3] == Apply(config, ts[2], ops[2]);
    assert ts[4] == Apply(config, ts[3], ops[3]) && ts[5] == Apply(config, ts[4], ops[4]);
    ClaimThenFail(config, ts[1], k, 0, 0, 0);
    ClaimThenFail(config, ts[3], k, 1, d, -100_000);
    OnlyJobIsTaken(config, ts[5], k, 2, 0);
    hide ClaimedRow;
  }

  lemma EarlyRuns(config: Config, k: Key)
    ensures var ops, ts := EarlyClaim(config.policy, k), EarlyTables(config, k, 6);
      && History(config, ops, ts) && |ts| == 7 && |ops| == 6
      && (forall i :: 0 <= i < 6 ==> ts[i + 1] == Apply(config, ts[i], ops[i]))
  {
    EarlyTablesAre(config, k, 6);
    hide Apply, EarlyTables;
  }

  lemma OpsOfEarlyClaim(policy: JobPolicy, k: Key)
    ensures var ops, due := EarlyClaim(policy, k), Min(policy.maximumBackoff, policy.baseBackoff);
      && |ops| == 6 && ops[1] == OpClaim("w", false, 0, 0, {}) && ops[2] == OpFail(k, 0, "x", true, 0)
      && ops[3] == OpClaim("w", false, 1, due, {}) && ops[4] == OpFail(k, 1, "x", true, -100_000)
      && ops[5] == OpClaim("w", false, 2, 0, {})
  {
  }

  lemma FirstTable(config: Config, k: Key)
    ensures var t := EarlyTables(config, k, 6)[1];
      t.jobs.Keys == {k} && t.jobs[k].status == Queued && t.jobs[k].attempts == 0 && t.jobs[k].availableAt == 0
  {
    EarlyTablesAre(config, k, 6);
    hide EarlyTables;
  }

  /** One claim and one failure of the only job. */
  lemma ClaimThenFail(config: Config, t: Table, k: Key, token: nat, now: int, back: int)
    requires config.policy.Valid() && t.jobs.Keys == {k} && t.jobs[k].status in {Queued, RetryWait}
    requires t.jobs[k].availableAt <= now && back <= now && config.Limit(k.tenant) >= 1
    requires t.jobs[k].attempts + 1 < config.policy.maxAttempts
    ensures var n := t.jobs[k].attempts + 1;
      var t' := Apply(config, Apply(config, t, OpClaim("w", false, token, now, {})), OpFail(k, token, "x", true, back));
      && t'.jobs.Keys == {k} && t'.jobs[k].status == RetryWait && t'.jobs[k].attempts == n
      && t'.jobs[k].availableAt == back + Min(config.policy.maximumBackoff, config.policy.baseBackoff * Pow2(n - 1))
  {
    hide Apply, Takes;
    OnlyJobIsTaken(config, t, k, token, now);
    OnlyJobFails(config, Apply(config, t, OpClaim("w", false, token, now, {})), k, token, back);
  }

  // ---------------------------------------------------------------- submissions of one run

  /** Every entry of the run index leads to the job of that run. */
  predicate LeadsToJob(t: Table, run: (Id, Id)) {
    run in t.byRun ==>
      && t.byRun[run] in t.jobs && t.byRun[run].tenant == run.0
      && t.jobs[t.byRun[run]].runId == run.1
  }

  lemma LeadsStep(config: Config, t: Table, op: Op, run: (Id, Id))
    requires LeadsToJob(t, run)
    ensures LeadsToJob(Apply(config, t, op), run)
  {
    if op.OpRecover? && StaleSelection(t, op.rows, op.now) && RecoverRows(config, t, op.rows, op.now).Some? {
      if run in t.byRun {
        RecoverRowsPointwise(config, t, op.rows, op.now, t.byRun[run]);
      } else {
        RecoverRowsPointwise(config, t, op.rows, op.now, Key(0, 0));
      }
    }
  }

  lemma {:induction false} RunLeads(config: Config, ops: seq<Op>, ts: seq<Table>, i: nat, run: (Id, Id))
    requires History(config, ops, ts) && i <= |ops|
    ensures LeadsToJob(ts[i], run)
  {
    hide Apply;
    if i > 0 {
      RunLeads(config, ops, ts, i - 1, run);
      assert ts[i] == Apply(config, ts[i - 1], ops[i - 1]);
      LeadsStep(config, ts[i - 1], ops[i - 1], run);
    }
  }

  /**
   A submission for a run that already has a job answers with that job, or refuses another payload, and changes
   nothing; otherwise it is refused for a taken id or stored as it is, without lease and error.
   */
  lemma SubmissionsConverge(config: Config, ops: seq<Op>, ts: seq<Table>, i: nat, tenant: Id, key: Key, job: Job)
    requires History(config, ops, ts) && i <= |ops| && tenant == key.tenant && job.status == Queued
    ensures var (t', r) := EnqueueOn(ts[i], tenant, key, job);
      && (forall k :: k in ts[i].jobs && k.tenant == tenant && ts[i].jobs[k].runId == job.runId ==>
            && t' == ts[i]
            && r == if ts[i].jobs[k].payloadHash == job.payloadHash then Success(ts[i].jobs[k])
                    else Failure(JobPayloadConflict))
      && ((forall k :: k in ts[i].jobs && k.tenant == tenant ==> ts[i].jobs[k].runId != job.runId) ==>
            if key in ts[i].jobs then t' == ts[i] && r == Failure(DuplicateJobId)
            else
              var row := job.(leaseHash := None, leaseExpires := None, lastError := None);
              r == Success(row) && t'.jobs == ts[i].jobs[key := row])
  {
    var t := ts[i];
    RunLeads(config, ops, ts, i, (tenant, job.runId));
    forall k | k in t.jobs && k.tenant == tenant && t.jobs[k].runId == job.runId
      ensures (tenant, job.runId) in t.byRun && t.byRun[(tenant, job.runId)] == k
    {
      RunKeepsIndex(config, ops, ts, i, k);
    }
  }

  // ---------------------------------------------------------------- what the log says

  function ClockOf(op: Op): int {
    if op.OpEnqueue? then op.job.updatedAt else op.now
  }

  /** The kind of event a transaction logs for a job that ends in this status. */
  predicate Tells(op: Op, kind: EventKind, status: JobStatus) {
    match op
    case OpEnqueue(_, _, _) => kind == JobQueued
    case OpRequeue(_, _, _) => kind == JobRequeued
    case OpClaim(_, _, _, _, _) => kind == JobClaimed
    case OpComplete(_, _, _, _) => kind == JobReached(status)
    case OpFail(_, _, _, _, _) => kind == JobReached(status)
    case OpCancel(_, _) => kind == JobCancelled
    case OpRecover(_, _) => kind == JobStaleLeaseRecovered
    case OpHeartbeat(_, _, _) => false
  }

  /** The one event a step adds names the time, the correlation of the row, the claiming worker and the failure. */
  predicate LogsTruly(t: Table, t': Table, op: Op, k: Key) {
    EventsOf(t', k) == EventsOf(t, k)
    || (&& k in t'.jobs && |EventsOf(t', k)| == |EventsOf(t, k)| + 1 && EventsOf(t, k) <= EventsOf(t', k)
        && var e := EventsOf(t', k)[|EventsOf(t, k)|];
           && e.sequence == |EventsOf(t, k)| + 1 && Tells(op, e.kind, t'.jobs[k].status)
           && e.occurredAt == ClockOf(op) && e.correlationId == t'.jobs[k].correlationId
           && e.workerId == (if op.OpClaim? then Some(op.workerId) else None)
           && e.reason == (if op.OpFail? then Some(op.reason) else None))
  }

  /** Storing a row logs exactly the event it was given. */
  lemma StoreLogs(
    config: Config, t: Table, key: Key, row: Job, kind: EventKind, worker: Option<string>, reason: Option<string>,
    op: Op, k: Key)
    requires JobInv(config, t, k) && Tells(op, kind, row.status)
    requires worker == (if op.OpClaim? then Some(op.workerId) else None)
    requires reason == (if op.OpFail? then Some(op.reason) else None)
    ensures LogsTruly(t, Store(t, key, row, kind, ClockOf(op), worker, reason), op, k)
  {
    if k == key {
      AppendExtends(EventsOf(t, k), row, kind, ClockOf(op), worker, reason);
    }
    hide AppendEvent, Tells, JobInv;
  }

  lemma NothingLogged(t: Table, t': Table, op: Op, k: Key)
    requires t'.log == t.log
    ensures LogsTruly(t, t', op, k)
  {
  }

  lemma EnqueueLogs(config: Config, t: Table, tenant: Id, key: Key, job: Job, k: Key)
    requires JobInv(config, t, k)
    ensures LogsTruly(t, EnqueueOn(t, tenant, key, job).0, OpEnqueue(tenant, key, job), k)
  {
    hide JobInv, AppendEvent;
    StoreLogs(config, t, key, Unleased(job).(lastError := None), JobQueued, None, None, OpEnqueue(tenant, key, job), k);
  }

  lemma SweepLogs(config: Config, t: Table, rows: seq<Key>, now: int, k: Key)
    requires JobInv(config, t, k)
    ensures LogsTruly(t, RecoverOn(config, t, rows, now).0, OpRecover(rows, now), k)
  {
    hide JobInv, AppendEvent, RecoverRows, ReleasedRow, NextAfterFailure;
    if StaleSelection(t, rows, now) && RecoverRows(config, t, rows, now).Some? {
      RecoverRowsPointwise(config, t, rows, now, k);
      if k in rows && k in t.jobs {
        var next := NextAfterFailure(config.policy, t.jobs[k].attempts, true);
        var row := ReleasedRow(t.jobs[k], next.value, STALE_LEASE_RECOVERED, now);
        StoreLogs(config, t, k, row, JobStaleLeaseRecovered, None, None, OpRecover(rows, now), k);
      }
    }
  }

  /** The transactions on the row of one job. */
  lemma RowOpLogs(config: Config, t: Table, op: Op, k: Key)
    requires JobInv(config, t, k) && !op.OpEnqueue? && !op.OpRecover?
    ensures LogsTruly(t, Apply(config, t, op), op, k)
  {
    hide JobInv, AppendEvent, LogsTruly, Store, ReleasedRow, NextAfterFailure, ClaimedRow;
    NothingLogged(t, t, op, k);
    match op
    case OpRequeue(key, correlationId, now) =>
      if key in t.jobs && Retryable(t.jobs[key].status) {
        StoreLogs(config, t, key, RequeueOn(t, key, correlationId, now).1.value, JobRequeued, None, None, op, k);
      }
    case OpClaim(workerId, blank, token, now, locked) =>
      var r := ClaimOn(config, t, workerId, blank, token, now, locked).1;
      if r.Success? && r.value.Some? {
        var key := r.value.value;
        StoreLogs(config, t, key, ClaimedRow(config, t.jobs[key], token, now), JobClaimed, Some(workerId), None, op, k);
      }
    case OpHeartbeat(_, _, _) => NothingLogged(t, Apply(config, t, op), op, k);
    case OpComplete(key, token, partial, now) =>
      if Holds(t, key, token, now) {
        var target := if partial then Partial else Completed;
        var row := Unleased(t.jobs[key]).(status := target, updatedAt := now);
        StoreLogs(config, t, key, row, JobReached(target), None, None, op, k);
      }
    case OpFail(key, token, reason, retryable, now) => FailLogs(config, t, op, k);
    case OpCancel(key, now) =>
      if key in t.jobs && !Terminal(t.jobs[key].status) {
        StoreLogs(config, t, key, CancelOn(t, key, now).1.value, JobCancelled, None, None, op, k);
      }
  }

  lemma FailLogs(config: Config, t: Table, op: Op, k: Key)
    requires JobInv(config, t, k) && op.OpFail?
    ensures LogsTruly(t, Apply(config, t, op), op, k)
  {
    hide JobInv, AppendEvent, LogsTruly, Store, NextAfterFailure;
    NothingLogged(t, t, op, k);
    if FailOn(config, t, op.key, op.token, op.reason, op.retryable, op.now).1.Success? {
      var next := NextAfterFailure(config.policy, t.jobs[op.key].attempts, op.retryable).value;
      var row := ReleasedRow(t.jobs[op.key], next, op.reason, op.now);
      StoreLogs(config, t, op.key, row, JobReached(next.0), None, Some(op.reason), op, k);
    }
  }

  lemma LogTellsTheRun(config: Config, ops: seq<Op>, ts: seq<Table>, i: nat, k: Key)
    requires config.policy.Valid() && History(config, ops, ts) && AllUnattempted(ops) && i < |ops|
    ensures LogsTruly(ts[i], ts[i + 1], ops[i], k)
  {
    RunKeeps(config, ops, ts, i, k);
    assert ts[i + 1] == Apply(config, ts[i], ops[i]);
    hide JobInv, LogsTruly;
    match ops[i]
    case OpEnqueue(tenant, key, job) => EnqueueLogs(config, ts[i], tenant, key, job, k);
    case OpRecover(rows, now) => SweepLogs(config, ts[i], rows, now, k);
    case _ => RowOpLogs(config, ts[i], ops[i], k);
  }
}
