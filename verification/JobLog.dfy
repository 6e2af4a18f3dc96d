/**
 What every run of queue transactions keeps: the shape of each row, and the agreement between a row
 and its event log. Replaying the log with the policy gives back the row's status and attempt count.
 */
module JobLog {
  import opened Wrappers
  import opened JobLifecycle
  import opened JobQueue

  // ---------------------------------------------------------------- row shape

  /** Lease columns are set exactly while running; attempts count the claims since the last (re)queue. */
  predicate WellFormed(policy: JobPolicy, job: Job) {
    && (job.leaseHash.Some? <==> job.status.Running?)
    && (job.leaseExpires.Some? <==> job.status.Running?)
    && (job.status.Queued? ==> job.attempts == 0)
    && (job.status.RetryWait? ==> 1 <= job.attempts < policy.maxAttempts)
    && (job.status.Running? ==> 1 <= job.attempts)
    && job.attempts <= policy.maxAttempts
  }

  /** The submitter only enqueues jobs nobody has attempted. */
  predicate SubmittedUnattempted(op: Op) {
    op.OpEnqueue? ==> op.job.attempts == 0
  }

  // ---------------------------------------------------------------- replay

  /** The meaning of one event: the status and attempt count after it. */
  function ReplayEvent(policy: JobPolicy, state: Option<(JobStatus, nat)>, kind: EventKind): Option<(JobStatus, nat)> {
    match kind
    case JobQueued => Some((Queued, 0))
    case JobRequeued => Some((Queued, 0))
    case JobClaimed => if state.Some? then Some((Running, state.value.1 + 1)) else None
    case JobReached(status) => if state.Some? then Some((status, state.value.1)) else None
    case JobCancelled => if state.Some? then Some((Cancelled, state.value.1)) else None
    case JobStaleLeaseRecovered =>
      if state.Some? then
        Some((if state.value.1 < policy.maxAttempts then RetryWait else DeadLetter, state.value.1))
      else None
  }

  function Replay(policy: JobPolicy, events: seq<Event>): Option<(JobStatus, nat)> {
    if events == [] then None
    else ReplayEvent(policy, Replay(policy, events[..|events| - 1]), events[|events| - 1].kind)
  }

  predicate Numbered(events: seq<Event>) {
    forall i :: 0 <= i < |events| ==> events[i].sequence == i + 1
  }

  function StateOf(t: Table, k: Key): Option<(JobStatus, nat)> {
    if k in t.jobs then Some((t.jobs[k].status, t.jobs[k].attempts)) else None
  }

  /** The job's row is well formed, its log is numbered 1, 2, ... and replays to the row. */
  predicate JobInv(config: Config, t: Table, k: Key) {
    && (k in t.jobs ==> WellFormed(config.policy, t.jobs[k]))
    && Numbered(EventsOf(t, k))
    && Replay(config.policy, EventsOf(t, k)) == StateOf(t, k)
  }

  /** Each job sits in the run index under its own run, so a tenant has at most one job per run. */
  predicate Indexed(t: Table, k: Key) {
    k in t.jobs ==>
      && (k.tenant, t.jobs[k].runId) in t.byRun
      && t.byRun[(k.tenant, t.jobs[k].runId)] == k
  }

  // ---------------------------------------------------------------- appending

  lemma {:induction false} MaxIsLength(events: seq<Event>)
    requires Numbered(events)
    ensures MaxSequence(events) == |events|
  {
    if events != [] {
      MaxIsLength(events[..|events| - 1]);
    }
  }

  /** On a numbered log no insert is ever dropped: the new row gets the next number. */
  lemma AppendExtends(events: seq<Event>, job: Job, kind: EventKind, now: int,
                      worker: Option<string>, reason: Option<string>)
    requires Numbered(events)
    ensures AppendEvent(events, job, kind, now, worker, reason)
         == events + [Event(|events| + 1, kind, now, job.correlationId, worker, reason)]
  {
    MaxIsLength(events);
  }

  // ---------------------------------------------------------------- one transaction

  /** A job's status moved along a legal edge, or stayed. */
  predicate LegalMove(t: Table, t': Table, k: Key) {
    k in t.jobs ==>
      && k in t'.jobs
      && (t'.jobs[k].status == t.jobs[k].status || t'.jobs[k].status in Allowed(t.jobs[k].status))
  }

  /** Events are only appended, one for each insertion or status change and none otherwise. */
  predicate LoggedMove(t: Table, t': Table, k: Key) {
    var moved := k in t'.jobs && (k !in t.jobs || t.jobs[k].status != t'.jobs[k].status);
    && EventsOf(t, k) <= EventsOf(t', k)
    && |EventsOf(t', k)| == |EventsOf(t, k)| + if moved then 1 else 0
  }

  predicate JobStep(config: Config, t: Table, t': Table, k: Key) {
    JobInv(config, t', k) && LegalMove(t, t', k) && LoggedMove(t, t', k)
  }

  /** The common step: a well-formed rewrite along an edge, explained by the event it appends. */
  lemma StoreKeeps(config: Config, t: Table, k: Key, job: Job, kind: EventKind, now: int,
                   worker: Option<string>, reason: Option<string>)
    requires JobInv(config, t, k) && WellFormed(config.policy, job)
    requires ReplayEvent(config.policy, StateOf(t, k), kind) == Some((job.status, job.attempts))
    requires k in t.jobs ==> job.status in Allowed(t.jobs[k].status)
    ensures JobStep(config, t, Store(t, k, job, kind, now, worker, reason), k)
  {
    var t' := Store(t, k, job, kind, now, worker, reason);
    AppendExtends(EventsOf(t, k), job, kind, now, worker, reason);
    var events := EventsOf(t', k);
    assert events[..|events| - 1] == EventsOf(t, k);
    assert events[|events| - 1].kind == kind;
  }

  /** A transaction that leaves a job's row and log alone. */
  lemma UntouchedKeeps(config: Config, t: Table, t': Table, k: Key)
    requires JobInv(config, t, k)
    requires EventsOf(t', k) == EventsOf(t, k) && (k in t'.jobs <==> k in t.jobs)
    requires k in t.jobs ==> t'.jobs[k] == t.jobs[k]
    ensures JobStep(config, t, t', k)
  {
  }

  lemma RecoverRowKeeps(config: Config, t: Table, k: Key, now: int)
    requires config.policy.Valid() && JobInv(config, t, k)
    requires k in t.jobs && t.jobs[k].status.Running?
    ensures RecoverRow(config, t, k, now).Some?
    ensures JobStep(config, t, RecoverRow(config, t, k, now).value, k)
    ensures RecoverRow(config, t, k, now).value.jobs[k].attempts == t.jobs[k].attempts
    ensures RecoverRow(config, t, k, now).value.jobs[k].status
         == if t.jobs[k].attempts < config.policy.maxAttempts then RetryWait else DeadLetter
  {
    var next := NextAfterFailure(config.policy, t.jobs[k].attempts, true);
    var row := ReleasedRow(t.jobs[k], next.value, STALE_LEASE_RECOVERED, now);
    StoreKeeps(config, t, k, row, JobStaleLeaseRecovered, now, None, None);
  }

  /** What the sweep does to one job: nothing, or what `RecoverRow` does to it alone. */
  predicate Swept(config: Config, t: Table, t': Table, rows: seq<Key>, now: int, k: Key) {
    && EventsOf(t', k) == (if k in rows && RecoverRow(config, t, k, now).Some?
                           then EventsOf(RecoverRow(config, t, k, now).value, k) else EventsOf(t, k))
    && (k in t'.jobs <==> k in t.jobs)
    && (k in t.jobs && k !in rows ==> t'.jobs[k] == t.jobs[k])
    && (k in t.jobs && k in rows ==>
          && RecoverRow(config, t, k, now).Some?
          && k in RecoverRow(config, t, k, now).value.jobs
          && t'.jobs[k] == RecoverRow(config, t, k, now).value.jobs[k])
  }

  /** The sweep treats distinct rows independently of one another. */
  lemma {:induction false} RecoverRowsPointwise(config: Config, t: Table, rows: seq<Key>, now: int, k: Key)
    requires RecoverRows(config, t, rows, now).Some?
    requires forall i, j :: 0 <= i < j < |rows| ==> rows[i] != rows[j]
    ensures Swept(config, t, RecoverRows(config, t, rows, now).value, rows, now, k)
    ensures RecoverRows(config, t, rows, now).value.byRun == t.byRun
  {
    if rows != [] {
      var init, last := rows[..|rows| - 1], rows[|rows| - 1];
      assert last !in init;
      assert k in rows <==> k in init || k == last;
      RecoverRowsPointwise(config, t, init, now, k);
    }
  }

  /** The sweep never raises. */
  lemma {:induction false} RecoverRowsSucceed(config: Config, t: Table, rows: seq<Key>, now: int)
    requires config.policy.Valid()
    requires forall k :: JobInv(config, t, k)
    requires forall i :: 0 <= i < |rows| ==> rows[i] in t.jobs && t.jobs[rows[i]].status.Running?
    requires forall i, j :: 0 <= i < j < |rows| ==> rows[i] != rows[j]
    ensures RecoverRows(config, t, rows, now).Some?
  {
    if rows != [] {
      var init, last := rows[..|rows| - 1], rows[|rows| - 1];
      RecoverRowsSucceed(config, t, init, now);
      RecoverRowsPointwise(config, t, init, now, last);
      assert last !in init;
      RecoverRowKeeps(config, t, last, now);
    }
  }

  lemma RecoverKeeps(config: Config, t: Table, rows: seq<Key>, now: int, k: Key)
    requires config.policy.Valid() && (forall j :: JobInv(config, t, j))
    requires StaleSelection(t, rows, now)
    ensures RecoverOn(config, t, rows, now).1 == Success(|rows|)
    ensures JobStep(config, t, RecoverOn(config, t, rows, now).0, k)
    ensures k in rows ==> RecoverOn(config, t, rows, now).0.jobs[k].status in {RetryWait, DeadLetter}
  {
    RecoverRowsSucceed(config, t, rows, now);
    RecoverRowsPointwise(config, t, rows, now, k);
    var t' := RecoverRows(config, t, rows, now).value;
    assert JobInv(config, t, k);
    if k in rows {
      RecoverRowKeeps(config, t, k, now);
    } else {
      UntouchedKeeps(config, t, t', k);
    }
  }

  /** The job a single-row transaction writes. */
  ghost function Target(config: Config, t: Table, op: Op): Option<Key> {
    match op
    case OpClaim(_, _, _, now, locked) => First(t.jobs, Candidates(config, t.jobs, now, locked))
    case OpRecover(_, _) => None
    case _ => Some(op.key)
  }

  lemma OthersUntouched(config: Config, t: Table, op: Op, k: Key)
    requires !op.OpRecover? && Target(config, t, op) != Some(k) && JobInv(config, t, k)
    ensures JobStep(config, t, Apply(config, t, op), k)
  {
    hide JobInv, JobStep, AppendEvent, ClaimedRow, Candidates;
    UntouchedKeeps(config, t, Apply(config, t, op), k);
  }

  lemma EnqueueKeeps(config: Config, t: Table, tenant: Id, k: Key, job: Job)
    requires JobInv(config, t, k) && job.attempts == 0 && config.policy.Valid()
    ensures JobStep(config, t, EnqueueOn(t, tenant, k, job).0, k)
  {
    hide Replay, MaxSequence;
    UntouchedKeeps(config, t, t, k);
    var t' := EnqueueOn(t, tenant, k, job).0;
    if t' != t {
      var row := Unleased(job).(lastError := None);
      var stored := Store(t, k, row, JobQueued, job.updatedAt, None, None);
      StoreKeeps(config, t, k, row, JobQueued, job.updatedAt, None, None);
      assert EventsOf(t', k) == EventsOf(stored, k);
    }
  }

  lemma OutcomeKeeps(
    config: Config, t: Table, k: Key, token: nat, reason: string, retryable: bool, partial: bool, now: int)
    requires JobInv(config, t, k) && config.policy.Valid()
    ensures JobStep(config, t, CompleteOn(t, k, token, partial, now).0, k)
    ensures JobStep(config, t, FailOn(config, t, k, token, reason, retryable, now).0, k)
  {
    hide Replay, MaxSequence, AppendEvent;
    UntouchedKeeps(config, t, t, k);
    if Holds(t, k, token, now) {
      var completed := CompleteOn(t, k, token, partial, now).0;
      StoreKeeps(config, t, k, completed.jobs[k], JobReached(completed.jobs[k].status), now, None, None);
      var failed := FailOn(config, t, k, token, reason, retryable, now).0;
      if 0 < |reason| <= 128 {
        StoreKeeps(config, t, k, failed.jobs[k], JobReached(failed.jobs[k].status), now, None, Some(reason));
      }
    }
  }

  lemma TargetKeeps(config: Config, t: Table, op: Op, k: Key)
    requires config.policy.Valid() && JobInv(config, t, k) && SubmittedUnattempted(op)
    requires !op.OpRecover? && Target(config, t, op) == Some(k)
    ensures JobStep(config, t, Apply(config, t, op), k)
  {
    hide Replay, MaxSequence, AppendEvent;
    var t' := Apply(config, t, op);
    UntouchedKeeps(config, t, t, k);
    match op
    case OpEnqueue(tenant, key, job) => EnqueueKeeps(config, t, tenant, k, job);
    case OpRequeue(key, correlationId, now) =>
      if k in t.jobs && Retryable(t.jobs[k].status) {
        StoreKeeps(config, t, k, t'.jobs[k], JobRequeued, now, None, None);
      }
    case OpClaim(workerId, blank, token, now, locked) =>
      if !blank {
        StoreKeeps(config, t, k, ClaimedRow(config, t.jobs[k], token, now), JobClaimed, now, Some(workerId), None);
      }
    case OpHeartbeat(key, token, now) =>
    case OpComplete(key, token, partial, now) => OutcomeKeeps(config, t, k, token, "", false, partial, now);
    case OpFail(key, token, reason, retryable, now) => OutcomeKeeps(config, t, k, token, reason, retryable, false, now);
    case OpCancel(key, now) =>
      if k in t.jobs && !Terminal(t.jobs[k].status) {
        StoreKeeps(config, t, k, t'.jobs[k], JobCancelled, now, None, None);
      }
  }

  /** Every transaction keeps the invariant of every job, moves it along a legal edge, and logs exactly the move. */
  lemma StepKeeps(config: Config, t: Table, op: Op, k: Key)
    requires config.policy.Valid() && SubmittedUnattempted(op)
    requires forall j :: JobInv(config, t, j)
    ensures JobStep(config, t, Apply(config, t, op), k)
  {
    if op.OpRecover? {
      if StaleSelection(t, op.rows, op.now) {
        RecoverKeeps(config, t, op.rows, op.now, k);
      } else {
        UntouchedKeeps(config, t, t, k);
      }
    } else if Target(config, t, op) == Some(k) {
      TargetKeeps(config, t, op, k);
    } else {
      OthersUntouched(config, t, op, k);
    }
  }

  lemma StepKeepsIndex(config: Config, t: Table, op: Op, k: Key)
    requires forall j :: Indexed(t, j)
    ensures Indexed(Apply(config, t, op), k)
  {
    assert Indexed(t, k);
    if op.OpRecover? && StaleSelection(t, op.rows, op.now) && RecoverRows(config, t, op.rows, op.now).Some? {
      RecoverRowsPointwise(config, t, op.rows, op.now, k);
    }
  }

  // ---------------------------------------------------------------- whole runs

  predicate AllUnattempted(ops: seq<Op>) {
    forall i :: 0 <= i < |ops| ==> SubmittedUnattempted(ops[i])
  }

  /** At every point of every run each log is numbered from 1 without gaps and replays to its row. */
  lemma {:induction false} RunKeeps(config: Config, ops: seq<Op>, ts: seq<Table>, i: nat, k: Key)
    requires config.policy.Valid() && History(config, ops, ts) && AllUnattempted(ops)
    requires i <= |ops|
    ensures JobInv(config, ts[i], k)
  {
    if i > 0 {
      var t := ts[i - 1];
      forall j ensures JobInv(config, t, j) {
        RunKeeps(config, ops, ts, i - 1, j);
      }
      assert ts[i] == Apply(config, t, ops[i - 1]);
      StepKeeps(config, t, ops[i - 1], k);
    }
  }

  /** In every run each transaction's status changes are legal edges, and each is logged once. */
  lemma RunMovesAlongEdges(config: Config, ops: seq<Op>, ts: seq<Table>, i: nat, k: Key)
    requires config.policy.Valid() && History(config, ops, ts) && AllUnattempted(ops)
    requires i < |ops|
    ensures LegalMove(ts[i], ts[i + 1], k) && LoggedMove(ts[i], ts[i + 1], k)
  {
    forall j ensures JobInv(config, ts[i], j) {
      RunKeeps(config, ops, ts, i, j);
    }
    assert ts[i + 1] == Apply(config, ts[i], ops[i]);
    StepKeeps(config, ts[i], ops[i], k);
  }

  /** Submissions of one run converge: no tenant ever has two jobs for it. */
  lemma {:induction false} OneJobPerRun(config: Config, ops: seq<Op>, ts: seq<Table>, i: nat, a: Key, b: Key)
    requires History(config, ops, ts) && i <= |ops|
    requires a in ts[i].jobs && b in ts[i].jobs && a.tenant == b.tenant && ts[i].jobs[a].runId == ts[i].jobs[b].runId
    ensures a == b
  {
    RunKeepsIndex(config, ops, ts, i, a);
    RunKeepsIndex(config, ops, ts, i, b);
  }

  lemma {:induction false} RunKeepsIndex(config: Config, ops: seq<Op>, ts: seq<Table>, i: nat, k: Key)
    requires History(config, ops, ts) && i <= |ops|
    ensures Indexed(ts[i], k)
  {
    if i > 0 {
      var t := ts[i - 1];
      forall j ensures Indexed(t, j) {
        RunKeepsIndex(config, ops, ts, i - 1, j);
      }
      assert ts[i] == Apply(config, t, ops[i - 1]);
      StepKeepsIndex(config, t, ops[i - 1], k);
    }
  }
}
